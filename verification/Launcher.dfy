/** The concurrent start path of user programs: StartPhase loops, StartProgram workers spawned by them or
    by prog-start commands, health checks and exits, interleaved one critical section at a time. */
module Launcher {
  import opened NameOrder
  import opened Programs
  import G = GroupRun

  /** A worker is one call of StartProgram: the k-th command, or a member of a phase run's group. */
  datatype WorkerId = Command(k: nat) | Member(run: nat, slot: G.Slot)

  /** Where a worker stands; each value is a point between two critical sections. */
  datatype Pc =
    | Entering
    | WaitingFor(dep: nat)
    | Delaying
    | Launching
    | Recording
    | Settling
    | Failing
    | Returned(ok: bool)

  datatype Worker = Worker(name: Name, pc: Pc)

  datatype Event =
    | Began(w: WorkerId)
    | Observed(w: WorkerId, dep: Name)
    | Launched(w: WorkerId, name: Name)

  datatype State = State(
    status: Statuses,
    workers: map<WorkerId, Worker>,
    runs: map<nat, G.Run>,
    phases: map<nat, string>,
    history: seq<Event>)

  datatype Step =
    | CallStart(k: nat, name: Name)
    | StartPhase(run: nat, phase: string)
    | RunStep(run: nat, step: G.Step)
    | Enter(w: WorkerId)
    | ObserveHealthy(w: WorkerId)
    | GiveUp(w: WorkerId)
    | DepsDone(w: WorkerId)
    | DelayOver(w: WorkerId)
    | DelayCancelled(w: WorkerId)
    | Exec(w: WorkerId, ok: bool)
    | Record(w: WorkerId)
    | Settle(w: WorkerId)
    | Fail(w: WorkerId)
    | HealthPassed(name: Name)
    | Changed(name: Name, to: ProgState)

  /** `n` has been launched by some worker. */
  ghost predicate LaunchedIn(h: seq<Event>, n: Name) {
    exists w :: Launched(w, n) in h
  }

  /** The members of each group that belong to the phase (manager.go:172-226). */
  predicate InPhase(progs: Configs, phase: string, n: Name) {
    n in progs && progs[n].enabled
    && (progs[n].phase == phase || (phase == PHASE_POST && progs[n].phase == ""))
  }

  function Filter(progs: Configs, phase: string, group: seq<Name>): (r: seq<Name>)
    ensures forall n :: n in r <==> n in group && InPhase(progs, phase, n)
  {
    if group == [] then []
    else
      assert forall n :: n in group <==> n == group[0] || n in group[1..];
      (if InPhase(progs, phase, group[0]) then [group[0]] else []) + Filter(progs, phase, group[1..])
  }

  function PhaseGroups(progs: Configs, phase: string, groups: seq<seq<Name>>): (r: seq<seq<Name>>)
    ensures forall i | 0 <= i < |r| :: i < |groups| && forall n ::
              n in r[i] <==> n in groups[i] && InPhase(progs, phase, n)
  {
    if forall n | n in progs :: !InPhase(progs, phase, n) then []
    else seq(|groups|, i requires 0 <= i < |groups| => Filter(progs, phase, groups[i]))
  }

  function Move(s: State, w: WorkerId, pc: Pc): State
    requires w in s.workers
  {
    s.(workers := s.workers[w := s.workers[w].(pc := pc)])
  }

  /** The worker returns; a group member's result reaches its errgroup. */
  function Return(s: State, w: WorkerId, ok: bool): (t: State)
    requires w in s.workers
    ensures t.workers == Move(s, w, Returned(ok)).workers && t.status == s.status && t.history == s.history
  {
    var t := Move(s, w, Returned(ok));
    match w
    case Command(_) => t
    case Member(r, slot) =>
      if r in s.runs && G.Enabled(s.runs[r], G.Return(slot, ok))
      then t.(runs := t.runs[r := G.Apply(s.runs[r], G.Return(slot, ok))])
      else t
  }

  function SetStatus(s: State, n: Name, to: ProgState): State {
    s.(status := s.status[n := to])
  }

  function Log(s: State, e: Event): State {
    s.(history := s.history + [e])
  }

  function Deps(progs: Configs, n: Name): seq<Name> {
    if n in progs then progs[n].dependsOn else []
  }

  function Spawn(run: nat, r: G.Run): map<WorkerId, Worker>
    requires r.cursor < |r.groups|
  {
    map n | n in r.groups[r.cursor] :: Member(run, G.Slot(r.cursor, n)) := Worker(n, Entering)
  }

  /** A worker at a given point for a known program. */
  predicate At(progs: Configs, s: State, w: WorkerId, pc: Pc) {
    w in s.workers && s.workers[w].pc == pc && s.workers[w].name in progs
  }

  ghost predicate Enabled(progs: Configs, res: Resolution, s: State, step: Step) {
    match step
    case CallStart(k, n) => Command(k) !in s.workers
    case StartPhase(run, phase) => run !in s.runs && res.Groups?
    case RunStep(run, gs) => run in s.runs && G.Enabled(s.runs[run], gs) && !gs.Return?
    case Enter(w) => w in s.workers && s.workers[w].pc == Entering
    case ObserveHealthy(w) =>
      && w in s.workers && s.workers[w].pc.WaitingFor?
      && var deps, i := Deps(progs, s.workers[w].name), s.workers[w].pc.dep;
      i < |deps| && deps[i] in s.status && s.status[deps[i]] == Healthy
    case GiveUp(w) =>
      w in s.workers && s.workers[w].pc.WaitingFor? && s.workers[w].pc.dep < |Deps(progs, s.workers[w].name)|
    case DepsDone(w) =>
      w in s.workers && s.workers[w].name in progs && s.workers[w].pc == WaitingFor(|Deps(progs, s.workers[w].name)|)
    case DelayOver(w) => At(progs, s, w, Delaying)
    case DelayCancelled(w) => At(progs, s, w, Delaying)
    case Exec(w, ok) => At(progs, s, w, Launching)
    case Record(w) => At(progs, s, w, Recording)
    case Settle(w) => At(progs, s, w, Settling)
    case Fail(w) => At(progs, s, w, Failing)
    case HealthPassed(n) => n in s.status && n in progs && progs[n].healthCheck != "" && LaunchedIn(s.history, n)
    case Changed(n, to) =>
      && n in s.status && n in progs && progs[n].enabled
      && (to == Stopped || (to in {Done, ProgState.Failed, HealthFailed} && LaunchedIn(s.history, n)))
  }

  ghost function Apply(progs: Configs, res: Resolution, s: State, step: Step): State
    requires Enabled(progs, res, s, step)
  {
    match step
    case CallStart(k, n) => s.(workers := s.workers[Command(k) := Worker(n, Entering)])
    case StartPhase(run, phase) => s.(runs := s.runs[run := G.Start(PhaseGroups(progs, phase, res.groups))],
              phases := s.phases[run := phase])
    case RunStep(run, gs) =>
      var t := s.(runs := s.runs[run := G.Apply(s.runs[run], gs)]);
      if gs.BeginGroup? then t.(workers := Spawn(run, s.runs[run]) + s.workers) else t
    case Enter(w) =>
      var n := s.workers[w].name;
      if n !in s.status then Return(s, w, false)
      else if SkipsStart(s.status[n]) then Return(s, w, true)
      else Log(Move(s, w, WaitingFor(0)).(status := Entered(s.status, n)), Began(w))
    case ObserveHealthy(w) =>
      var i := s.workers[w].pc.dep;
      Log(Move(s, w, WaitingFor(i + 1)), Observed(w, Deps(progs, s.workers[w].name)[i]))
    case GiveUp(w) =>
      // A missing dependency returns at once; a finished one, a timeout or a cancelled context marks failure first.
      if Deps(progs, s.workers[w].name)[s.workers[w].pc.dep] !in s.status then Return(s, w, false)
      else Move(s, w, Failing)
    case DepsDone(w) =>
      var n := s.workers[w].name;
      if progs[n].startDelay > 0 then SetStatus(Move(s, w, Delaying), n, WaitingDelay)
      else SetStatus(Move(s, w, Launching), n, Starting)
    case DelayOver(w) => SetStatus(Move(s, w, Launching), s.workers[w].name, Starting)
    case DelayCancelled(w) => Return(s, w, false)
    case Exec(w, ok) =>
      if ok then Log(Move(s, w, Recording), Launched(w, s.workers[w].name)) else Move(s, w, Failing)
    case Record(w) => SetStatus(Move(s, w, Settling), s.workers[w].name, Running)
    case Settle(w) =>
      var t := Return(s, w, true);
      if progs[s.workers[w].name].healthCheck == "" then SetStatus(t, s.workers[w].name, Healthy) else t
    case Fail(w) => SetStatus(Return(s, w, false), s.workers[w].name, ProgState.Failed)
    case HealthPassed(n) => SetStatus(s, n, Healthy)
    case Changed(n, to) => SetStatus(s, n, to)
  }

  function Init(progs: Configs): State {
    State(Initial(progs), map[], map[], map[], [])
  }

  /** Worker `w` has observed its first `i` dependencies since it began. */
  ghost predicate ObservedUpTo(h: seq<Event>, w: WorkerId, deps: seq<Name>, i: nat) {
    forall k | 0 <= k < i && k < |deps| :: Observed(w, deps[k]) in h
  }

  /** What must be in the history before event `e` can follow. */
  ghost predicate Explains(progs: Configs, h: seq<Event>, e: Event) {
    match e
    case Began(w) => Began(w) !in h
    case Observed(w, d) => Began(w) in h && LaunchedIn(h, d)
    case Launched(w, n) => n in progs && progs[n].enabled && forall d | d in progs[n].dependsOn :: Observed(w, d) in h
  }

  ghost predicate WorkerInv(progs: Configs, h: seq<Event>, w: WorkerId, worker: Worker) {
    var n, pc := worker.name, worker.pc;
    && (pc.Entering? ==> Began(w) !in h)
    && (!pc.Entering? && !pc.Returned? ==> n in progs && progs[n].enabled && Began(w) in h)
    && (pc.WaitingFor? ==> pc.dep <= |progs[n].dependsOn| && ObservedUpTo(h, w, progs[n].dependsOn, pc.dep))
    && (pc.Delaying? || pc.Launching? ==> ObservedUpTo(h, w, progs[n].dependsOn, |progs[n].dependsOn|))
    && (pc.Recording? || pc.Settling? ==> LaunchedIn(h, n))
  }

  ghost predicate StatusInv(progs: Configs, status: Statuses, h: seq<Event>) {
    && status.Keys == progs.Keys
    && (forall n | n in progs && (status[n] == Healthy || status[n] == Running) :: LaunchedIn(h, n))
    && (forall n | n in progs && !progs[n].enabled :: status[n] == Disabled)
  }

  ghost predicate HistoryInv(progs: Configs, h: seq<Event>) {
    forall k | 0 <= k < |h| :: Explains(progs, h[..k], h[k])
  }

  ghost predicate Inv(progs: Configs, s: State) {
    && StatusInv(progs, s.status, s.history)
    && (forall w | w in s.workers :: WorkerInv(progs, s.history, w, s.workers[w]))
    && (forall w | Began(w) in s.history :: w in s.workers)
    && HistoryInv(progs, s.history)
  }

  lemma HistorySnoc(progs: Configs, h: seq<Event>, e: Event)
    requires HistoryInv(progs, h) && Explains(progs, h, e)
    ensures HistoryInv(progs, h + [e])
  {
    var g := h + [e];
    forall k | 0 <= k < |g| ensures Explains(progs, g[..k], g[k]) {
      assert g[..k] == h[..k];
      assert k == |h| ==> h[..k] == h;
    }
  }

  lemma LaunchedGrows(h: seq<Event>, e: Event, n: Name)
    ensures LaunchedIn(h, n) ==> LaunchedIn(h + [e], n)
    ensures e.Launched? ==> LaunchedIn(h + [e], e.name)
  {
  }

  lemma WorkerUndisturbed(progs: Configs, h: seq<Event>, e: Event, w: WorkerId, worker: Worker)
    requires WorkerInv(progs, h, w, worker) && e != Began(w)
    ensures WorkerInv(progs, h + [e], w, worker)
  {
  }

  /** A step that logs nothing keeps the invariant if the workers and entries it touches do. */
  lemma QuietStep(progs: Configs, s: State, t: State)
    requires Inv(progs, s)
    requires t.history == s.history && s.workers.Keys <= t.workers.Keys && StatusInv(progs, t.status, s.history)
    requires forall v | v in t.workers ::
               (v in s.workers && t.workers[v] == s.workers[v]) || WorkerInv(progs, s.history, v, t.workers[v])
    ensures Inv(progs, t)
  {
  }

  /** So does a step by one worker that logs one explained event. */
  lemma LogStep(progs: Configs, s: State, t: State, w: WorkerId, e: Event)
    requires Inv(progs, s) && w in s.workers
    requires t.history == s.history + [e] && StatusInv(progs, t.status, s.history)
    requires w in t.workers && t.workers == s.workers[w := t.workers[w]] && WorkerInv(progs, t.history, w, t.workers[w])
    requires e.w == w && Explains(progs, s.history, e)
    ensures Inv(progs, t)
  {
    HistorySnoc(progs, s.history, e);
    forall v | v in t.workers ensures WorkerInv(progs, t.history, v, t.workers[v]) {
      if v != w {
        WorkerUndisturbed(progs, s.history, e, v, s.workers[v]);
      }
    }
    forall n | n in progs && (t.status[n] == Healthy || t.status[n] == Running) ensures LaunchedIn(t.history, n) {
      LaunchedGrows(s.history, e, n);
    }
  }

  lemma EnterInv(progs: Configs, res: Resolution, s: State, w: WorkerId)
    requires Inv(progs, s) && Enabled(progs, res, s, Enter(w))
    ensures Inv(progs, Apply(progs, res, s, Enter(w)))
  {
    var t := Apply(progs, res, s, Enter(w));
    assert WorkerInv(progs, s.history, w, s.workers[w]);
    if t.history == s.history {
      QuietStep(progs, s, t);
    } else {
      assert Began(w) in t.history;
      LogStep(progs, s, t, w, Began(w));
    }
  }

  lemma ObserveInv(progs: Configs, res: Resolution, s: State, w: WorkerId)
    requires Inv(progs, s) && Enabled(progs, res, s, ObserveHealthy(w))
    ensures Inv(progs, Apply(progs, res, s, ObserveHealthy(w)))
  {
    var t := Apply(progs, res, s, ObserveHealthy(w));
    assert WorkerInv(progs, s.history, w, s.workers[w]);
    var i := s.workers[w].pc.dep;
    var e := Observed(w, progs[s.workers[w].name].dependsOn[i]);
    assert e in t.history;
    WorkerUndisturbed(progs, s.history, e, w, s.workers[w]);
    LogStep(progs, s, t, w, e);
  }

  lemma ExecInv(progs: Configs, res: Resolution, s: State, w: WorkerId, ok: bool)
    requires Inv(progs, s) && Enabled(progs, res, s, Exec(w, ok))
    ensures Inv(progs, Apply(progs, res, s, Exec(w, ok)))
  {
    var t := Apply(progs, res, s, Exec(w, ok));
    var n := s.workers[w].name;
    assert WorkerInv(progs, s.history, w, s.workers[w]);
    if ok {
      LaunchedGrows(s.history, Launched(w, n), n);
      LogStep(progs, s, t, w, Launched(w, n));
    } else {
      QuietStep(progs, s, t);
    }
  }

  /** A step that moves one worker and logs nothing. */
  lemma MoveStep(progs: Configs, s: State, t: State, w: WorkerId)
    requires Inv(progs, s) && w in s.workers
    requires t.history == s.history && StatusInv(progs, t.status, s.history)
    requires w in t.workers && t.workers == s.workers[w := t.workers[w]]
    requires WorkerInv(progs, s.history, w, t.workers[w])
    ensures Inv(progs, t)
  {
  }

  /** The critical sections between the last dependency and the launch, and after it. */
  lemma DepsDoneInv(progs: Configs, res: Resolution, s: State, w: WorkerId)
    requires Inv(progs, s) && Enabled(progs, res, s, DepsDone(w))
    ensures Inv(progs, Apply(progs, res, s, DepsDone(w)))
  {
    hide ObservedUpTo, HistoryInv, LaunchedIn;
    assert WorkerInv(progs, s.history, w, s.workers[w]);
    MoveStep(progs, s, Apply(progs, res, s, DepsDone(w)), w);
  }

  lemma ProgressInv(progs: Configs, res: Resolution, s: State, step: Step)
    requires Inv(progs, s) && Enabled(progs, res, s, step)
    requires step.DelayOver? || step.Record?
    ensures Inv(progs, Apply(progs, res, s, step))
  {
    hide ObservedUpTo, HistoryInv;
    assert WorkerInv(progs, s.history, step.w, s.workers[step.w]);
    MoveStep(progs, s, Apply(progs, res, s, step), step.w);
  }

  /** The critical sections that end a worker. */
  lemma ReturnInv(progs: Configs, res: Resolution, s: State, step: Step)
    requires Inv(progs, s) && Enabled(progs, res, s, step)
    requires step.DelayCancelled? || step.Settle? || step.Fail?
    ensures Inv(progs, Apply(progs, res, s, step))
  {
    hide ObservedUpTo, HistoryInv;
    assert WorkerInv(progs, s.history, step.w, s.workers[step.w]);
    MoveStep(progs, s, Apply(progs, res, s, step), step.w);
  }

  lemma GiveUpInv(progs: Configs, res: Resolution, s: State, w: WorkerId)
    requires Inv(progs, s) && Enabled(progs, res, s, GiveUp(w))
    ensures Inv(progs, Apply(progs, res, s, GiveUp(w)))
  {
  }

  lemma SpawnInv(progs: Configs, res: Resolution, s: State, run: nat, gs: G.Step)
    requires Inv(progs, s) && Enabled(progs, res, s, RunStep(run, gs))
    ensures Inv(progs, Apply(progs, res, s, RunStep(run, gs)))
  {
    var t := Apply(progs, res, s, RunStep(run, gs));
    forall v | v in t.workers && v !in s.workers ensures WorkerInv(progs, s.history, v, t.workers[v]) {
      assert Began(v) !in s.history;
    }
    QuietStep(progs, s, t);
  }

  /** Commands, phase starts, health checks and exits. */
  lemma OutsideInv(progs: Configs, res: Resolution, s: State, step: Step)
    requires Inv(progs, s) && Enabled(progs, res, s, step)
    requires step.CallStart? || step.StartPhase? || step.HealthPassed? || step.Changed?
    ensures Inv(progs, Apply(progs, res, s, step))
  {
    hide ObservedUpTo, PhaseGroups;
    assert step.CallStart? ==> Began(Command(step.k)) !in s.history;
    QuietStep(progs, s, Apply(progs, res, s, step));
  }

  lemma StepInv(progs: Configs, res: Resolution, s: State, step: Step)
    requires Inv(progs, s) && Enabled(progs, res, s, step)
    ensures Inv(progs, Apply(progs, res, s, step))
  {
    hide Inv, Enabled, Apply;
    match step
    case Enter(w) => EnterInv(progs, res, s, w);
    case ObserveHealthy(w) => ObserveInv(progs, res, s, w);
    case Exec(w, ok) => ExecInv(progs, res, s, w, ok);
    case RunStep(run, gs) => SpawnInv(progs, res, s, run, gs);
    case CallStart(_, _) => OutsideInv(progs, res, s, step);
    case StartPhase(_, _) => OutsideInv(progs, res, s, step);
    case HealthPassed(_) => OutsideInv(progs, res, s, step);
    case Changed(_, _) => OutsideInv(progs, res, s, step);
    case DepsDone(w) => DepsDoneInv(progs, res, s, w);
    case GiveUp(w) => GiveUpInv(progs, res, s, w);
    case DelayOver(_) => ProgressInv(progs, res, s, step);
    case Record(_) => ProgressInv(progs, res, s, step);
    case _ => ReturnInv(progs, res, s, step);
  }

  /** A group member's worker and its errgroup slot tell the same story. */
  ghost predicate SlotInv(workers: map<WorkerId, Worker>, run: G.Run, r: nat, slot: G.Slot) {
    var w := Member(r, slot);
    && (w in workers <==> slot in run.begun)
    && (w in workers ==>
          && workers[w].name == slot.name
          && (workers[w].pc.Returned? <==> slot in run.returned)
          && (workers[w].pc.Returned? ==> workers[w].pc.ok == run.returned[slot]))
  }

  ghost predicate RunInv(progs: Configs, res: Resolution, run: G.Run, phase: string) {
    G.Inv(run) && res.Groups? && run.groups == PhaseGroups(progs, phase, res.groups)
  }

  ghost predicate AllRunsInv(progs: Configs, res: Resolution, workers: map<WorkerId, Worker>, runs: map<nat, G.Run>,
                             phases: map<nat, string>) {
    && phases.Keys == runs.Keys
    && (forall r, slot | Member(r, slot) in workers :: r in runs)
    && (forall r | r in runs :: RunInv(progs, res, runs[r], phases[r]))
    && (forall r, slot | r in runs :: SlotInv(workers, runs[r], r, slot))
  }

  ghost predicate RunsInv(progs: Configs, res: Resolution, s: State) {
    AllRunsInv(progs, res, s.workers, s.runs, s.phases)
  }

  /** Steps that move a worker without ending it, or only touch statuses. */
  lemma QuietRuns(progs: Configs, res: Resolution, s: State, t: State)
    requires RunsInv(progs, res, s)
    requires t.runs == s.runs && t.phases == s.phases
    requires forall r, slot :: Member(r, slot) in t.workers <==> Member(r, slot) in s.workers
    requires forall r, slot | Member(r, slot) in s.workers ::
               var v, u := s.workers[Member(r, slot)], t.workers[Member(r, slot)];
               v == u || (u.name == v.name && !v.pc.Returned? && !u.pc.Returned?)
    ensures RunsInv(progs, res, t)
  {
    forall r, slot | r in t.runs ensures SlotInv(t.workers, t.runs[r], r, slot) {
      assert SlotInv(s.workers, s.runs[r], r, slot);
    }
  }

  lemma QuietMove(progs: Configs, res: Resolution, s: State, t: State, w: WorkerId)
    requires RunsInv(progs, res, s) && w in s.workers && w in t.workers
    requires t.runs == s.runs && t.phases == s.phases
    requires t.workers == s.workers[w := t.workers[w]]
    requires t.workers[w].name == s.workers[w].name && !s.workers[w].pc.Returned? && !t.workers[w].pc.Returned?
    ensures RunsInv(progs, res, t)
  {
    QuietRuns(progs, res, s, t);
  }

  /** One run changes; the slots of the others are untouched. */
  lemma OneRun(progs: Configs, res: Resolution, s: State, t: State, run: nat)
    requires RunsInv(progs, res, s) && run in s.runs && run in t.runs
    requires t.phases == s.phases && t.runs == s.runs[run := t.runs[run]]
    requires RunInv(progs, res, t.runs[run], t.phases[run])
    requires forall w | w in t.workers :: w in s.workers || (w.Member? && w.run == run)
    requires forall r, slot | r != run :: Member(r, slot) in s.workers ==>
               Member(r, slot) in t.workers && t.workers[Member(r, slot)] == s.workers[Member(r, slot)]
    requires forall slot :: SlotInv(t.workers, t.runs[run], run, slot)
    ensures RunsInv(progs, res, t)
  {
    forall r, slot | r in t.runs ensures SlotInv(t.workers, t.runs[r], r, slot) {
      if r != run {
        assert SlotInv(s.workers, s.runs[r], r, slot);
      }
    }
  }

  lemma SlotReturned(workers: map<WorkerId, Worker>, r: G.Run, run: nat, slot: G.Slot, ok: bool, other: G.Slot)
    requires Member(run, slot) in workers && SlotInv(workers, r, run, slot) && SlotInv(workers, r, run, other)
    ensures var w := Member(run, slot);
            SlotInv(workers[w := workers[w].(pc := Returned(ok))], r.(returned := r.returned[slot := ok]), run, other)
  {
  }

  lemma ReturnMember(progs: Configs, res: Resolution, s: State, run: nat, slot: G.Slot, ok: bool)
    requires RunsInv(progs, res, s) && Member(run, slot) in s.workers && !s.workers[Member(run, slot)].pc.Returned?
    ensures RunsInv(progs, res, Return(s, Member(run, slot), ok))
  {
    var r := s.runs[run];
    assert RunInv(progs, res, r, s.phases[run]) && SlotInv(s.workers, r, run, slot);
    G.OutstandingIsAwaited(r, slot);
    G.StepInv(r, G.Return(slot, ok));
    var t := Return(s, Member(run, slot), ok);
    forall other ensures SlotInv(t.workers, t.runs[run], run, other) {
      SlotReturned(s.workers, r, run, slot, ok, other);
    }
    OneRun(progs, res, s, t, run);
  }

  lemma ReturnRuns(progs: Configs, res: Resolution, s: State, w: WorkerId, ok: bool)
    requires RunsInv(progs, res, s) && w in s.workers && !s.workers[w].pc.Returned?
    ensures RunsInv(progs, res, Return(s, w, ok))
  {
    match w
    case Command(_) => QuietRuns(progs, res, s, Return(s, w, ok));
    case Member(run, slot) => ReturnMember(progs, res, s, run, slot, ok);
  }

  lemma BeginRuns(progs: Configs, res: Resolution, s: State, run: nat)
    requires RunsInv(progs, res, s) && Enabled(progs, res, s, RunStep(run, G.BeginGroup))
    ensures RunsInv(progs, res, Apply(progs, res, s, RunStep(run, G.BeginGroup)))
  {
    var r := s.runs[run];
    var t := Apply(progs, res, s, RunStep(run, G.BeginGroup));
    assert RunInv(progs, res, r, s.phases[run]);
    G.StepInv(r, G.BeginGroup);
    forall slot ensures SlotInv(t.workers, t.runs[run], run, slot) {
      assert SlotInv(s.workers, r, run, slot);
    }
    OneRun(progs, res, s, t, run);
  }

  lemma RunStepRuns(progs: Configs, res: Resolution, s: State, run: nat, gs: G.Step)
    requires RunsInv(progs, res, s) && Enabled(progs, res, s, RunStep(run, gs))
    ensures RunsInv(progs, res, Apply(progs, res, s, RunStep(run, gs)))
  {
    hide PhaseGroups, LaunchedIn;
    if gs.BeginGroup? {
      BeginRuns(progs, res, s, run);
    } else {
      var t := Apply(progs, res, s, RunStep(run, gs));
      assert RunInv(progs, res, s.runs[run], s.phases[run]);
      G.StepInv(s.runs[run], gs);
      forall slot ensures SlotInv(t.workers, t.runs[run], run, slot) {
        assert SlotInv(s.workers, s.runs[run], run, slot);
      }
      OneRun(progs, res, s, t, run);
    }
  }

  lemma StartPhaseRuns(progs: Configs, res: Resolution, s: State, run: nat, phase: string)
    requires RunsInv(progs, res, s) && Enabled(progs, res, s, StartPhase(run, phase))
    ensures RunsInv(progs, res, Apply(progs, res, s, StartPhase(run, phase)))
  {
    var t := Apply(progs, res, s, StartPhase(run, phase));
    G.StartInv(PhaseGroups(progs, phase, res.groups));
    forall r, slot | r in t.runs ensures SlotInv(t.workers, t.runs[r], r, slot) {
      if r != run {
        assert SlotInv(s.workers, s.runs[r], r, slot);
      }
    }
  }

  /** Steps that always end the worker. */
  lemma EndingRuns(progs: Configs, res: Resolution, s: State, step: Step)
    requires RunsInv(progs, res, s) && Enabled(progs, res, s, step)
    requires step.DelayCancelled? || step.Settle? || step.Fail?
    ensures RunsInv(progs, res, Apply(progs, res, s, step))
  {
    ReturnRuns(progs, res, s, step.w, step.Settle?);
  }

  /** Steps that may end the worker or move it on. */
  lemma DecidingRuns(progs: Configs, res: Resolution, s: State, step: Step)
    requires RunsInv(progs, res, s) && Enabled(progs, res, s, step)
    requires step.Enter? || step.GiveUp?
    ensures RunsInv(progs, res, Apply(progs, res, s, step))
  {
    var t, w := Apply(progs, res, s, step), step.w;
    if t.workers[w].pc.Returned? {
      ReturnRuns(progs, res, s, w, t.workers[w].pc.ok);
    } else {
      QuietMove(progs, res, s, t, w);
    }
  }

  /** Steps that end no worker and touch no run. */
  lemma OtherRuns(progs: Configs, res: Resolution, s: State, step: Step)
    requires RunsInv(progs, res, s) && Enabled(progs, res, s, step)
    requires step.CallStart? || step.HealthPassed? || step.Changed? || step.ObserveHealthy? || step.DepsDone?
          || step.DelayOver? || step.Exec? || step.Record?
    ensures RunsInv(progs, res, Apply(progs, res, s, step))
  {
    hide AllRunsInv, RunInv;
    var t := Apply(progs, res, s, step);
    if step.CallStart? || step.HealthPassed? || step.Changed? {
      QuietRuns(progs, res, s, t);
    } else {
      QuietMove(progs, res, s, t, step.w);
    }
  }

  lemma StepRuns(progs: Configs, res: Resolution, s: State, step: Step)
    requires RunsInv(progs, res, s) && Enabled(progs, res, s, step)
    ensures RunsInv(progs, res, Apply(progs, res, s, step))
  {
    hide RunsInv, Enabled, Apply;
    match step
    case RunStep(run, gs) => RunStepRuns(progs, res, s, run, gs);
    case StartPhase(run, phase) => StartPhaseRuns(progs, res, s, run, phase);
    case Enter(_) => DecidingRuns(progs, res, s, step);
    case GiveUp(_) => DecidingRuns(progs, res, s, step);
    case DelayCancelled(_) => EndingRuns(progs, res, s, step);
    case Settle(_) => EndingRuns(progs, res, s, step);
    case Fail(_) => EndingRuns(progs, res, s, step);
    case _ => OtherRuns(progs, res, s, step);
  }
}

/** What the marks and results of the start path mean: when a program counts as healthy, what an attempt's result says,
    when a delay is kept, and which programs a phase starts. */
module LaunchMeaning {
  import opened NameOrder
  import opened Layering
  import opened Programs
  import opened Launcher
  import opened LaunchSafety
  import G = GroupRun

  /** Steps that belong to one worker. */
  predicate OfWorker(step: Step) {
    !step.CallStart? && !step.StartPhase? && !step.RunStep? && !step.HealthPassed? && !step.Changed?
  }

  lemma OthersStand(progs: Configs, res: Resolution, s: State, step: Step, w: WorkerId)
    requires Enabled(progs, res, s, step) && (OfWorker(step) ==> step.w != w)
    ensures var t := Apply(progs, res, s, step);
            if w in s.workers then w in t.workers && t.workers[w] == s.workers[w]
            else w in t.workers ==> t.workers[w].pc.Entering?
  {
    hide PhaseGroups, LaunchedIn;
  }

  // ---- healthy ----

  /** A program with a health check becomes healthy by passing it, and in no other way. */
  lemma HealthyOnlyByCheck(progs: Configs, res: Resolution, s: State, step: Step, n: Name)
    requires Enabled(progs, res, s, step) && n in progs && progs[n].healthCheck != "" && n in s.status
    requires s.status[n] != Healthy
    ensures var t := Apply(progs, res, s, step); n in t.status && (t.status[n] == Healthy ==> step == HealthPassed(n))
  {
    hide PhaseGroups, LaunchedIn;
  }

  /** A program without one is healthy the moment the attempt that launched it returns, and that attempt succeeds. */
  lemma UncheckedHealthyAtOnce(progs: Configs, res: Resolution, s: State, step: Step, w: WorkerId, n: Name)
    requires Enabled(progs, res, s, step) && HasLaunched(s, w, n) && !s.workers[w].pc.Returned?
    requires n in progs && progs[n].healthCheck == ""
    requires HasLaunched(Apply(progs, res, s, step), w, n) && Apply(progs, res, s, step).workers[w].pc.Returned?
    ensures var t := Apply(progs, res, s, step);
            t.workers[w].pc == Returned(true) && n in t.status && t.status[n] == Healthy
  {
    hide PhaseGroups, LaunchedIn;
  }

  /** Between two states of a run something made `d` healthy. */
  lemma {:induction false} BecameHealthy(progs: Configs, res: Resolution, b: seq<State>, j: nat, d: Name)
    returns (i: nat)
    requires Behaviour(progs, res, b) && j < |b| && d in b[j].status && b[j].status[d] == Healthy
    ensures i < j && d in b[i].status && d in b[i+1].status
    ensures b[i].status[d] != Healthy && b[i+1].status[d] == Healthy
  {
    hide Enabled, Apply, Inv, RunsInv, Init;
    BehaviourInv(progs, res, b, j);
    StatusKnown(progs, b[j]);
    if j == 0 {
      NoneHealthyAtFirst(progs, d);
    } else {
      BehaviourInv(progs, res, b, j - 1);
      StatusKnown(progs, b[j-1]);
      if b[j-1].status[d] == Healthy {
        i := BecameHealthy(progs, res, b, j - 1, d);
      } else {
        i := j - 1;
      }
    }
  }

  lemma StatusKnown(progs: Configs, s: State)
    requires Inv(progs, s)
    ensures s.status.Keys == progs.Keys
  {
  }

  lemma NoneHealthyAtFirst(progs: Configs, d: Name)
    requires d in progs
    ensures d in Init(progs).status && Init(progs).status[d] != Healthy
  {
  }

  /** In step `i` of the run `d` passed its health check. */
  ghost predicate PassedCheck(progs: Configs, res: Resolution, b: seq<State>, i: nat, d: Name) {
    i + 1 < |b| && Enabled(progs, res, b[i], HealthPassed(d)) && b[i+1] == Apply(progs, res, b[i], HealthPassed(d))
  }

  /** So whenever a process is launched, each dependency with a health check had passed it earlier in the run: before
      the attempt saw it healthy, and so before the launch. */
  lemma ChecksPassedFirst(progs: Configs, res: Resolution, b: seq<State>, k: nat, d: Name)
    requires Behaviour(progs, res, b) && k < |b[|b|-1].history| && b[|b|-1].history[k].Launched?
    requires DependsOn(progs, b[|b|-1].history[k].name, d) && d in progs && progs[d].healthCheck != ""
    ensures var w := b[|b|-1].history[k].w;
            exists i, j :: i < j && PassedCheck(progs, res, b, i, d) && SawHealthy(b, j, k, w, d)
  {
    hide Enabled, Apply, Init;
    DependenciesSeenHealthy(progs, res, b, k);
    var j :| SawHealthy(b, j, k, b[|b|-1].history[k].w, d);
    var i := BecameHealthy(progs, res, b, j, d);
    assert Next(progs, res, b[i], b[i+1]);
    var step :| Enabled(progs, res, b[i], step) && b[i+1] == Apply(progs, res, b[i], step);
    HealthyOnlyByCheck(progs, res, b[i], step, d);
    assert PassedCheck(progs, res, b, i, d);
  }

  // ---- results ----

  ghost predicate Did(h: seq<Event>, w: WorkerId) {
    exists n :: Launched(w, n) in h
  }

  /** What the place of a worker says about the process it was to launch. */
  ghost predicate ResultInv(progs: Configs, h: seq<Event>, w: WorkerId, worker: Worker) {
    && (worker.pc.Recording? || worker.pc.Settling? ==> Did(h, w))
    && (worker.pc.Returned? ==> (worker.pc.ok <==> Did(h, w) || (Began(w) !in h && worker.name in progs)))
  }

  ghost predicate ResultsInv(progs: Configs, s: State) {
    forall w | w in s.workers :: ResultInv(progs, s.history, w, s.workers[w])
  }

  /** A step logs events of its own worker only. */
  lemma LogsOwn(progs: Configs, res: Resolution, s: State, step: Step)
    requires Enabled(progs, res, s, step)
    ensures var t := Apply(progs, res, s, step);
            || t.history == s.history
            || (OfWorker(step) && exists e: Event :: e.w == step.w && t.history == s.history + [e])
  {
    hide PhaseGroups, LaunchedIn;
  }

  lemma SameResult(progs: Configs, res: Resolution, s: State, step: Step, w: WorkerId)
    requires Enabled(progs, res, s, step) && (OfWorker(step) ==> step.w != w)
    requires w in s.workers && ResultInv(progs, s.history, w, s.workers[w])
    ensures w in Apply(progs, res, s, step).workers
    ensures ResultInv(progs, Apply(progs, res, s, step).history, w, Apply(progs, res, s, step).workers[w])
  {
    hide Enabled, Apply;
    LogsOwn(progs, res, s, step);
    OthersStand(progs, res, s, step, w);
    var t := Apply(progs, res, s, step);
    assert forall n :: Launched(w, n) in t.history <==> Launched(w, n) in s.history;
  }

  lemma OwnResult(progs: Configs, res: Resolution, s: State, step: Step)
    requires Inv(progs, s) && OnceInv(s) && Enabled(progs, res, s, step) && OfWorker(step)
    requires step.w in s.workers && ResultInv(progs, s.history, step.w, s.workers[step.w])
    ensures step.w in Apply(progs, res, s, step).workers
    ensures ResultInv(progs, Apply(progs, res, s, step).history, step.w, Apply(progs, res, s, step).workers[step.w])
  {
    hide HistoryInv, ObservedUpTo, LaunchedIn;
    var w, t := step.w, Apply(progs, res, s, step);
    assert WorkerInv(progs, s.history, w, s.workers[w]);
    if !PastExec(s.workers[w].pc) {
      NothingYet(s, w);
    }
    if step.Exec? && step.ok {
      assert Launched(w, s.workers[w].name) in t.history;
    } else {
      OwnLaunches(progs, res, s, step);
    }
  }

  lemma NothingYet(s: State, w: WorkerId)
    requires OnceInv(s) && w in s.workers && !PastExec(s.workers[w].pc)
    ensures !Did(s.history, w)
  {
    forall n ensures Launched(w, n) !in s.history {
      assert Launched(w, n) in s.history ==> HasLaunched(s, w, n);
    }
  }

  lemma OwnLaunches(progs: Configs, res: Resolution, s: State, step: Step)
    requires Enabled(progs, res, s, step) && OfWorker(step) && !(step.Exec? && step.ok)
    ensures Did(Apply(progs, res, s, step).history, step.w) <==> Did(s.history, step.w)
  {
    hide Enabled, Apply;
    QuietLog(progs, res, s, step);
    var t := Apply(progs, res, s, step);
    assert forall n :: Launched(step.w, n) in t.history <==> Launched(step.w, n) in s.history;
  }

  lemma ResultsStep(progs: Configs, res: Resolution, s: State, step: Step)
    requires Inv(progs, s) && OnceInv(s) && ResultsInv(progs, s) && Enabled(progs, res, s, step)
    ensures ResultsInv(progs, Apply(progs, res, s, step))
  {
    hide Enabled, Apply, Inv, OnceInv, ResultInv;
    var t := Apply(progs, res, s, step);
    if OfWorker(step) {
      OwnWorker(progs, res, s, step);
    }
    forall w | w in t.workers ensures ResultInv(progs, t.history, w, t.workers[w]) {
      if OfWorker(step) && step.w == w {
        OwnResult(progs, res, s, step);
      } else if w in s.workers {
        SameResult(progs, res, s, step, w);
      } else {
        OthersStand(progs, res, s, step, w);
        JustEntered(progs, t.history, w, t.workers[w]);
      }
    }
  }

  lemma OwnWorker(progs: Configs, res: Resolution, s: State, step: Step)
    requires Enabled(progs, res, s, step) && OfWorker(step)
    ensures step.w in s.workers
  {
  }

  lemma JustEntered(progs: Configs, h: seq<Event>, w: WorkerId, worker: Worker)
    requires worker.pc.Entering?
    ensures ResultInv(progs, h, w, worker)
  {
  }

  lemma {:induction false} ResultsBehaviour(progs: Configs, res: Resolution, b: seq<State>, i: nat)
    requires Behaviour(progs, res, b) && i < |b|
    ensures ResultsInv(progs, b[i])
  {
    hide Enabled, Apply, Inv, RunsInv, OnceInv, ResultInv;
    if i > 0 {
      ResultsBehaviour(progs, res, b, i - 1);
      BehaviourInv(progs, res, b, i - 1);
      OnceBehaviour(progs, res, b, i - 1);
      assert Next(progs, res, b[i-1], b[i]);
      var step :| Enabled(progs, res, b[i-1], step) && b[i] == Apply(progs, res, b[i-1], step);
      ResultsStep(progs, res, b[i-1], step);
    }
  }

  /** What StartProgram's result means: an attempt that began returns nil exactly when it launched its program; one that
      did not begin returns nil exactly when there is such a program, already up or disabled. */
  lemma ReturnIff(progs: Configs, res: Resolution, s: State, w: WorkerId)
    requires Reachable(progs, res, s) && w in s.workers && s.workers[w].pc.Returned?
    ensures Began(w) in s.history ==> (s.workers[w].pc.ok <==> Launched(w, s.workers[w].name) in s.history)
    ensures Began(w) !in s.history ==> (s.workers[w].pc.ok <==> s.workers[w].name in progs)
  {
    var b :| Behaviour(progs, res, b) && b[|b|-1] == s;
    ResultsBehaviour(progs, res, b, |b| - 1);
    OnceBehaviour(progs, res, b, |b| - 1);
    BehaviourInv(progs, res, b, |b| - 1);
    assert ResultInv(progs, s.history, w, s.workers[w]);
    forall n | Launched(w, n) in s.history ensures n == s.workers[w].name && Began(w) in s.history {
      assert HasLaunched(s, w, n);
      LaunchBegan(progs, res, s, w, n);
    }
  }

  lemma LaunchBegan(progs: Configs, res: Resolution, s: State, w: WorkerId, n: Name)
    requires Reachable(progs, res, s) && Launched(w, n) in s.history
    ensures Began(w) in s.history
  {
    var b :| Behaviour(progs, res, b) && b[|b|-1] == s;
    LaunchesBegun(progs, res, b, |b| - 1, w, n);
  }

  lemma {:induction false} LaunchesBegun(progs: Configs, res: Resolution, b: seq<State>, i: nat, w: WorkerId, n: Name)
    requires Behaviour(progs, res, b) && i < |b| && Launched(w, n) in b[i].history
    ensures Began(w) in b[i].history
  {
    hide Enabled, Apply, Inv, RunsInv;
    if i > 0 {
      BehaviourInv(progs, res, b, i - 1);
      assert Next(progs, res, b[i-1], b[i]);
      var step :| Enabled(progs, res, b[i-1], step) && b[i] == Apply(progs, res, b[i-1], step);
      HistoryStep(progs, res, b[i-1], step);
      if Launched(w, n) in b[i-1].history {
        LaunchesBegun(progs, res, b, i - 1, w, n);
      } else {
        LaunchBegunStep(progs, res, b[i-1], step, w, n);
      }
    }
  }

  lemma LaunchBegunStep(progs: Configs, res: Resolution, s: State, step: Step, w: WorkerId, n: Name)
    requires Inv(progs, s) && Enabled(progs, res, s, step)
    requires Launched(w, n) in Apply(progs, res, s, step).history && Launched(w, n) !in s.history
    ensures Began(w) in Apply(progs, res, s, step).history
  {
    if step.Exec? && step.ok {
      assert WorkerInv(progs, s.history, step.w, s.workers[step.w]);
      assert Apply(progs, res, s, step).history[|s.history|] == Launched(step.w, s.workers[step.w].name);
    } else {
      QuietLog(progs, res, s, step);
    }
  }

  /** An attempt that fails after it began leaves its program marked failed, unless it was cancelled in its start delay
      or met a dependency that does not exist. */
  lemma FailureMarks(progs: Configs, res: Resolution, s: State, step: Step, w: WorkerId)
    requires Enabled(progs, res, s, step) && w in s.workers && !s.workers[w].pc.Returned? && !s.workers[w].pc.Entering?
    requires w in Apply(progs, res, s, step).workers && Apply(progs, res, s, step).workers[w].pc == Returned(false)
    ensures var t, n, pc := Apply(progs, res, s, step), s.workers[w].name, s.workers[w].pc;
            || (n in t.status && t.status[n] == ProgState.Failed)
            || pc.Delaying?
            || (pc.WaitingFor? && pc.dep < |Deps(progs, n)| && Deps(progs, n)[pc.dep] !in s.status)
  {
    hide PhaseGroups, LaunchedIn;
  }

  // ---- start delays ----

  /** Worker `w` was in its start delay in state `i` of the run or before. */
  ghost predicate Delayed(b: seq<State>, i: nat, w: WorkerId) {
    exists j: nat :: j <= i && j < |b| && w in b[j].workers && b[j].workers[w].pc.Delaying?
  }

  ghost predicate DelayOk(progs: Configs, worker: Worker, did: bool, delayed: bool) {
    worker.name in progs ==>
      var due, pc := progs[worker.name].startDelay > 0, worker.pc;
      && (pc.Entering? || pc.WaitingFor? ==> !delayed)
      && (pc.Delaying? ==> due && delayed)
      && (pc.Launching? || pc.Recording? || pc.Settling? || did ==> (delayed <==> due))
  }

  lemma DelayMove(progs: Configs, res: Resolution, s: State, step: Step, did: bool, after: bool, delayed: bool)
    requires Enabled(progs, res, s, step) && OfWorker(step) && step.w in s.workers
    requires DelayOk(progs, s.workers[step.w], did, delayed) && (after ==> did || (step.Exec? && step.ok))
    ensures var t, w := Apply(progs, res, s, step), step.w;
            w in t.workers && DelayOk(progs, t.workers[w], after, delayed || t.workers[w].pc.Delaying?)
  {
    hide LaunchedIn;
  }

  lemma OwnDelay(progs: Configs, res: Resolution, s: State, step: Step, delayed: bool)
    requires Enabled(progs, res, s, step) && OfWorker(step) && step.w in s.workers
    requires DelayOk(progs, s.workers[step.w], Did(s.history, step.w), delayed)
    ensures var t, w := Apply(progs, res, s, step), step.w;
            w in t.workers && DelayOk(progs, t.workers[w], Did(t.history, w), delayed || t.workers[w].pc.Delaying?)
  {
    hide Enabled, Apply, DelayOk, Did;
    if !(step.Exec? && step.ok) {
      OwnLaunches(progs, res, s, step);
    }
    var t := Apply(progs, res, s, step);
    DelayMove(progs, res, s, step, Did(s.history, step.w), Did(t.history, step.w), delayed);
  }

  lemma SameDid(progs: Configs, res: Resolution, s: State, step: Step, w: WorkerId)
    requires Enabled(progs, res, s, step) && (OfWorker(step) ==> step.w != w)
    ensures Did(Apply(progs, res, s, step).history, w) <==> Did(s.history, w)
  {
    hide Enabled, Apply;
    LogsOwn(progs, res, s, step);
    var t := Apply(progs, res, s, step);
    assert forall n :: Launched(w, n) in t.history <==> Launched(w, n) in s.history;
  }

  ghost predicate DelaysInv(progs: Configs, b: seq<State>, i: nat)
    requires i < |b|
  {
    && (forall w | w in b[i].workers :: DelayOk(progs, b[i].workers[w], Did(b[i].history, w), Delayed(b, i, w)))
    && (forall w | Delayed(b, i, w) :: w in b[i].workers)
  }

  lemma DelayedNext(b: seq<State>, i: nat, w: WorkerId)
    requires i + 1 < |b|
    ensures Delayed(b, i + 1, w) <==>
              Delayed(b, i, w) || (w in b[i+1].workers && b[i+1].workers[w].pc.Delaying?)
  {
    if Delayed(b, i + 1, w) {
      var j: nat :| j <= i + 1 && j < |b| && w in b[j].workers && b[j].workers[w].pc.Delaying?;
    }
  }

  lemma NewcomerDelay(progs: Configs, h: seq<Event>, w: WorkerId, worker: Worker)
    requires worker.pc.Entering? && !Did(h, w)
    ensures DelayOk(progs, worker, Did(h, w), false)
  {
  }

  lemma StrangerLaunchedNothing(s: State, w: WorkerId)
    requires OnceInv(s) && w !in s.workers
    ensures !Did(s.history, w)
  {
    forall n ensures Launched(w, n) !in s.history {
      assert Launched(w, n) in s.history ==> HasLaunched(s, w, n);
    }
  }

  lemma DelaysStep(progs: Configs, res: Resolution, b: seq<State>, i: nat, step: Step)
    requires i + 1 < |b| && OnceInv(b[i]) && Enabled(progs, res, b[i], step) && b[i+1] == Apply(progs, res, b[i], step)
    requires DelaysInv(progs, b, i)
    ensures DelaysInv(progs, b, i + 1)
  {
    hide Enabled, Apply, OnceInv, DelayOk, Did, Delayed;
    var s, t := b[i], b[i+1];
    if OfWorker(step) {
      OwnWorker(progs, res, s, step);
      OwnDelay(progs, res, s, step, Delayed(b, i, step.w));
    }
    forall w ensures w in s.workers ==> w in t.workers {
      if !(OfWorker(step) && step.w == w) {
        OthersStand(progs, res, s, step, w);
      }
    }
    forall w | w in t.workers ensures DelayOk(progs, t.workers[w], Did(t.history, w), Delayed(b, i + 1, w)) {
      DelayedNext(b, i, w);
      if !(OfWorker(step) && step.w == w) {
        OthersStand(progs, res, s, step, w);
        SameDid(progs, res, s, step, w);
        if w in s.workers {
          InDelayWasDelayed(progs, s.workers[w], Did(s.history, w), Delayed(b, i, w));
        } else {
          StrangerLaunchedNothing(s, w);
          NewcomerDelay(progs, t.history, w, t.workers[w]);
        }
      }
    }
    forall w | Delayed(b, i + 1, w) ensures w in t.workers {
      DelayedNext(b, i, w);
    }
  }

  lemma InDelayWasDelayed(progs: Configs, worker: Worker, did: bool, delayed: bool)
    requires DelayOk(progs, worker, did, delayed)
    ensures DelayOk(progs, worker, did, delayed || worker.pc.Delaying?)
  {
  }

  lemma {:induction false} DelaysBehaviour(progs: Configs, res: Resolution, b: seq<State>, i: nat)
    requires Behaviour(progs, res, b) && i < |b|
    ensures DelaysInv(progs, b, i)
  {
    hide Enabled, Apply, OnceInv;
    if i > 0 {
      hide DelaysInv;
      DelaysBehaviour(progs, res, b, i - 1);
      OnceBehaviour(progs, res, b, i - 1);
      assert Next(progs, res, b[i-1], b[i]);
      var step :| Enabled(progs, res, b[i-1], step) && b[i] == Apply(progs, res, b[i-1], step);
      DelaysStep(progs, res, b, i - 1, step);
    }
  }

  /** An attempt that launched has been through its start delay exactly when its program has one. */
  lemma DelayKeptIff(progs: Configs, res: Resolution, b: seq<State>, w: WorkerId, n: Name)
    requires Behaviour(progs, res, b) && Launched(w, n) in b[|b|-1].history && n in progs
    ensures Delayed(b, |b| - 1, w) <==> progs[n].startDelay > 0
  {
    hide Delayed;
    var last := b[|b|-1];
    DelaysBehaviour(progs, res, b, |b| - 1);
    OnceBehaviour(progs, res, b, |b| - 1);
    assert HasLaunched(last, w, n);
    assert DelayOk(progs, last.workers[w], Did(last.history, w), Delayed(b, |b| - 1, w));
  }

  // ---- what a phase starts ----

  /** The slots of a phase run, said without the filter: the enabled programs of that phase, an empty phase counting
      as post. */
  lemma PhaseSlots(progs: Configs, res: Resolution, s: State, run: nat, g: nat, n: Name)
    requires Reachable(progs, res, s) && run in s.runs && run in s.phases && res.Groups?
    ensures (g < |s.runs[run].groups| && n in s.runs[run].groups[g]) <==>
              (g < |res.groups| && n in res.groups[g] && n in progs && progs[n].enabled
              && (progs[n].phase == s.phases[run] || (s.phases[run] == "post" && progs[n].phase == "")))
  {
    ReachableInv(progs, res, s);
    assert RunInv(progs, res, s.runs[run], s.phases[run]);
  }

  /** A phase without programs has nothing to wait for or to be cancelled in; any other runs through all the groups. */
  lemma PhaseLength(progs: Configs, res: Resolution, s: State, run: nat)
    requires Reachable(progs, res, s) && run in s.runs && run in s.phases && res.Groups?
    ensures |s.runs[run].groups| ==
              if exists n | n in progs ::
                   (progs[n].enabled
                   && (progs[n].phase == s.phases[run] || (s.phases[run] == "post" && progs[n].phase == "")))
              then |res.groups| else 0
  {
    ReachableInv(progs, res, s);
    assert RunInv(progs, res, s.runs[run], s.phases[run]);
    hide Filter;
  }

  /** With the two known phases: exactly the scheduled names of the phase. */
  lemma KnownPhaseSlots(progs: Configs, m: Configs, res: Resolution, s: State, run: nat, g: nat, n: Name)
    requires Tables(progs, m) && Justified(m, res) && res.Groups? && Reachable(progs, res, s)
    requires run in s.runs && run in s.phases && g < |res.groups|
    ensures (g < |s.runs[run].groups| && n in s.runs[run].groups[g]) <==>
              (n in res.groups[g] && n in progs && progs[n].phase == s.phases[run])
  {
    hide Reachable;
    PhaseSlots(progs, res, s, run, g, n);
    assert n in res.groups[g] ==> n in m;
  }

  /** A phase that succeeded has, for every enabled program of the phase, a worker that returned nil. */
  lemma PhaseStartsAll(progs: Configs, m: Configs, res: Resolution, s: State, run: nat, n: Name)
    requires Tables(progs, m) && Justified(m, res) && res.Groups? && Reachable(progs, res, s)
    requires run in s.runs && run in s.phases && s.runs[run].status == G.Succeeded
    requires n in progs && progs[n].enabled && progs[n].phase == s.phases[run]
    ensures exists g: nat ::
              g < |res.groups| && n in res.groups[g] && WorkerReturned(s, Member(run, G.Slot(g, n)), true)
  {
    hide Reachable;
    assert n in m;
    var g: nat :| g < |res.groups| && n in res.groups[g];
    PhaseSuccess(progs, res, s, run, g, n);
  }

  // ---- what backs a mark ----

  ghost predicate Launches(s: State, n: Name) {
    exists w :: w in s.workers && s.workers[w].name == n
      && (s.workers[w].pc.Launching? || s.workers[w].pc.Recording? || s.workers[w].pc.Failing?)
  }

  ghost predicate Settles(s: State, n: Name) {
    exists w :: w in s.workers && s.workers[w].name == n && s.workers[w].pc.Settling?
  }

  /** A starting program has a worker about to launch it or to report on it, a running one without a health check a
      worker about to mark it healthy, and only disabled programs are marked disabled. */
  ghost predicate Backed(progs: Configs, s: State, n: Name) {
    n in s.status && n in progs ==>
      && (s.status[n] == ProgState.Starting ==> Launches(s, n))
      && (s.status[n] == Running && progs[n].healthCheck == "" ==> Settles(s, n))
      && (s.status[n] == Disabled ==> !progs[n].enabled)
  }

  lemma BackedOutside(progs: Configs, res: Resolution, s: State, step: Step, n: Name)
    requires Backed(progs, s, n) && Enabled(progs, res, s, step) && !OfWorker(step)
    ensures Backed(progs, Apply(progs, res, s, step), n)
  {
    hide LaunchedIn, PhaseGroups;
    var t := Apply(progs, res, s, step);
    forall w | w in s.workers ensures w in t.workers && t.workers[w] == s.workers[w] {
      OthersStand(progs, res, s, step, w);
    }
  }

  lemma BackedByOther(progs: Configs, res: Resolution, s: State, step: Step, n: Name)
    requires Backed(progs, s, n) && Enabled(progs, res, s, step) && OfWorker(step) && step.w in s.workers
    requires s.workers[step.w].name != n
    ensures Backed(progs, Apply(progs, res, s, step), n)
  {
    hide LaunchedIn;
    var t := Apply(progs, res, s, step);
    forall w | w in s.workers && s.workers[w].name == n ensures w in t.workers && t.workers[w] == s.workers[w] {
      OthersStand(progs, res, s, step, w);
    }
  }

  lemma OwnMove(progs: Configs, res: Resolution, s: State, step: Step)
    requires Enabled(progs, res, s, step) && OfWorker(step) && step.w in s.workers
    ensures var t, w := Apply(progs, res, s, step), step.w;
            w in t.workers && t.workers[w].name == s.workers[w].name && t.workers == s.workers[w := t.workers[w]]
  {
    hide LaunchedIn;
  }

  lemma BackedOwn(progs: Configs, res: Resolution, s: State, step: Step, n: Name)
    requires Backed(progs, s, n) && Enabled(progs, res, s, step) && OfWorker(step) && step.w in s.workers
    requires s.workers[step.w].name == n
    ensures Backed(progs, Apply(progs, res, s, step), n)
  {
    hide LaunchedIn;
    OwnMove(progs, res, s, step);
    var t := Apply(progs, res, s, step);
    assert forall w | w in s.workers && w != step.w :: w in t.workers && t.workers[w] == s.workers[w];
    assert t.workers[step.w].name == n;
  }

  lemma {:induction false} BackedBehaviour(progs: Configs, res: Resolution, b: seq<State>, i: nat, n: Name)
    requires Behaviour(progs, res, b) && i < |b|
    ensures Backed(progs, b[i], n)
  {
    hide Enabled, Apply;
    if i > 0 {
      hide Backed;
      BackedBehaviour(progs, res, b, i - 1, n);
      assert Next(progs, res, b[i-1], b[i]);
      var step :| Enabled(progs, res, b[i-1], step) && b[i] == Apply(progs, res, b[i-1], step);
      if OfWorker(step) {
        OwnWorker(progs, res, b[i-1], step);
        if b[i-1].workers[step.w].name == n {
          BackedOwn(progs, res, b[i-1], step, n);
        } else {
          BackedByOther(progs, res, b[i-1], step, n);
        }
      } else {
        BackedOutside(progs, res, b[i-1], step, n);
      }
    }
  }

  lemma ReachableBacked(progs: Configs, res: Resolution, s: State, n: Name)
    requires Reachable(progs, res, s)
    ensures Backed(progs, s, n)
  {
    hide Backed;
    var b :| Behaviour(progs, res, b) && b[|b|-1] == s;
    BackedBehaviour(progs, res, b, |b| - 1, n);
  }
}

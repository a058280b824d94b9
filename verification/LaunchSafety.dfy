/** What holds in every interleaving of the start path. */
module LaunchSafety {
  import opened NameOrder
  import opened Layering
  import opened Programs
  import opened Launcher
  import G = GroupRun

  ghost predicate Next(progs: Configs, res: Resolution, s: State, t: State) {
    exists step :: Enabled(progs, res, s, step) && t == Apply(progs, res, s, step)
  }

  ghost predicate Behaviour(progs: Configs, res: Resolution, b: seq<State>) {
    && b != [] && b[0] == Init(progs)
    && forall i, j | 0 <= i && i + 1 == j < |b| :: Next(progs, res, b[i], b[j])
  }

  ghost predicate Reachable(progs: Configs, res: Resolution, s: State) {
    exists b :: Behaviour(progs, res, b) && b[|b|-1] == s
  }

  lemma InitInv(progs: Configs, res: Resolution)
    ensures Inv(progs, Init(progs)) && RunsInv(progs, res, Init(progs))
  {
  }

  lemma {:induction false} BehaviourInv(progs: Configs, res: Resolution, b: seq<State>, i: nat)
    requires Behaviour(progs, res, b) && i < |b|
    ensures Inv(progs, b[i]) && RunsInv(progs, res, b[i])
  {
    hide Enabled, Apply, Inv, RunsInv;
    InitInv(progs, res);
    if i > 0 {
      BehaviourInv(progs, res, b, i - 1);
      assert Next(progs, res, b[i-1], b[i]);
      var step :| Enabled(progs, res, b[i-1], step) && b[i] == Apply(progs, res, b[i-1], step);
      StepInv(progs, res, b[i-1], step);
      StepRuns(progs, res, b[i-1], step);
    }
  }

  lemma ReachableInv(progs: Configs, res: Resolution, s: State)
    requires Reachable(progs, res, s)
    ensures Inv(progs, s) && RunsInv(progs, res, s)
  {
    var b :| Behaviour(progs, res, b) && b[|b|-1] == s;
    BehaviourInv(progs, res, b, |b| - 1);
  }

  /** The exec is behind the worker. */
  predicate PastExec(pc: Pc) {
    pc.Recording? || pc.Settling? || pc.Returned?
  }

  ghost predicate HasLaunched(s: State, w: WorkerId, n: Name) {
    w in s.workers && s.workers[w].name == n && PastExec(s.workers[w].pc)
  }

  /** Launches belong to workers past their exec, and no worker has two. */
  ghost predicate OnceInv(s: State) {
    && (forall w, n | Launched(w, n) in s.history :: HasLaunched(s, w, n))
    && (forall i, j | 0 <= i < j < |s.history| && s.history[i].Launched? && s.history[j].Launched? ::
              s.history[i].w != s.history[j].w)
  }

  lemma StaysLaunched(progs: Configs, res: Resolution, s: State, step: Step, w: WorkerId, n: Name)
    requires Enabled(progs, res, s, step) && HasLaunched(s, w, n)
    ensures HasLaunched(Apply(progs, res, s, step), w, n)
  {
  }

  /** Only an exec logs a launch. */
  lemma QuietLog(progs: Configs, res: Resolution, s: State, step: Step)
    requires Enabled(progs, res, s, step) && !(step.Exec? && step.ok)
    ensures var t := Apply(progs, res, s, step);
            t.history == s.history || exists e: Event :: !e.Launched? && t.history == s.history + [e]
  {
  }

  lemma OnceExec(progs: Configs, res: Resolution, s: State, w: WorkerId)
    requires OnceInv(s) && Enabled(progs, res, s, Exec(w, true))
    ensures OnceInv(Apply(progs, res, s, Exec(w, true)))
  {
    var t, h := Apply(progs, res, s, Exec(w, true)), s.history;
    forall i | 0 <= i < |h| && h[i].Launched? ensures h[i].w != w {
      assert Launched(h[i].w, h[i].name) in h;
      assert HasLaunched(s, h[i].w, h[i].name);
    }
    forall v, n | Launched(v, n) in t.history ensures HasLaunched(t, v, n) {
      assert Launched(v, n) in h ==> HasLaunched(s, v, n);
    }
  }

  lemma OnceStep(progs: Configs, res: Resolution, s: State, step: Step)
    requires OnceInv(s) && Enabled(progs, res, s, step)
    ensures OnceInv(Apply(progs, res, s, step))
  {
    if step.Exec? && step.ok {
      OnceExec(progs, res, s, step.w);
    } else {
      hide Enabled, Apply, HasLaunched;
      var t := Apply(progs, res, s, step);
      QuietLog(progs, res, s, step);
      forall w, n | Launched(w, n) in t.history ensures HasLaunched(t, w, n) {
        assert Launched(w, n) in s.history;
        StaysLaunched(progs, res, s, step, w, n);
      }
    }
  }

  lemma {:induction false} OnceBehaviour(progs: Configs, res: Resolution, b: seq<State>, i: nat)
    requires Behaviour(progs, res, b) && i < |b|
    ensures OnceInv(b[i])
  {
    hide Enabled, Apply, OnceInv;
    if i == 0 {
      NothingLaunched(progs);
    } else {
      OnceBehaviour(progs, res, b, i - 1);
      assert Next(progs, res, b[i-1], b[i]);
      var step :| Enabled(progs, res, b[i-1], step) && b[i] == Apply(progs, res, b[i-1], step);
      OnceStep(progs, res, b[i-1], step);
    }
  }

  lemma NothingLaunched(progs: Configs)
    ensures OnceInv(Init(progs))
  {
  }

  /** A start attempt launches at most one process, and that of its own program. */
  lemma OneLaunchPerAttempt(progs: Configs, res: Resolution, s: State, i: nat, j: nat)
    requires Reachable(progs, res, s) && i < j < |s.history| && s.history[i].Launched? && s.history[j].Launched?
    ensures s.history[i].w != s.history[j].w
    ensures s.history[i].w in s.workers && s.workers[s.history[i].w].name == s.history[i].name
  {
    var b :| Behaviour(progs, res, b) && b[|b|-1] == s;
    OnceBehaviour(progs, res, b, |b| - 1);
    assert Launched(s.history[i].w, s.history[i].name) in s.history;
    assert HasLaunched(s, s.history[i].w, s.history[i].name);
  }

  ghost predicate LaunchedBefore(h: seq<Event>, k: nat, n: Name) {
    exists l | 0 <= l < k && l < |h| :: h[l].Launched? && h[l].name == n
  }

  lemma LaunchPosition(h: seq<Event>, j: nat, n: Name)
    requires j <= |h| && LaunchedIn(h[..j], n)
    ensures LaunchedBefore(h, j, n)
  {
  }

  /** A worker logged seeing `d` after it began and before event `k`, and `d` had been launched by then. */
  ghost predicate ObservedBefore(h: seq<Event>, k: nat, w: WorkerId, d: Name) {
    exists b, j | 0 <= b < j < k && j < |h| :: h[b] == Began(w) && h[j] == Observed(w, d) && LaunchedBefore(h, j, d)
  }

  lemma ObservedWasLaunched(h: seq<Event>, k: nat, w: WorkerId, d: Name) returns (l: nat)
    requires k <= |h| && ObservedBefore(h, k, w, d)
    ensures l < k && h[l].Launched? && h[l].name == d
  {
    var b, j :| 0 <= b < j < k && j < |h| && h[b] == Began(w) && h[j] == Observed(w, d) && LaunchedBefore(h, j, d);
    l :| l < j && h[l].Launched? && h[l].name == d;
  }

  /** A process is launched only for an enabled program, and only after this very start attempt has logged seeing
      each of its dependencies, each of them having been launched before it was seen. This holds
      whether the attempt came from a phase or from a prog-start command, and whether or not resolution succeeds. */
  lemma LaunchAfterDependencies(progs: Configs, res: Resolution, s: State, k: nat)
    requires Reachable(progs, res, s) && k < |s.history| && s.history[k].Launched?
    ensures var n := s.history[k].name;
            && n in progs && progs[n].enabled
            && forall d | d in progs[n].dependsOn :: ObservedBefore(s.history, k, s.history[k].w, d)
  {
    ReachableInv(progs, res, s);
    var h, n, w := s.history, s.history[k].name, s.history[k].w;
    assert Explains(progs, h[..k], h[k]);
    forall d | d in progs[n].dependsOn ensures ObservedBefore(h, k, w, d) {
      var j :| 0 <= j < k && h[..k][j] == Observed(w, d);
      assert Explains(progs, h[..j], h[j]);
      var b :| 0 <= b < j && h[..j][b] == Began(w);
      LaunchPosition(h, j, d);
    }
  }

  // ---- what a poll saw ----

  /** A step adds at most one event. */
  lemma HistoryStep(progs: Configs, res: Resolution, s: State, step: Step)
    requires Enabled(progs, res, s, step)
    ensures var h := Apply(progs, res, s, step).history;
            s.history <= h && |h| <= |s.history| + 1
  {
  }

  /** The index at which event `p` was appended. */
  lemma {:induction false} AppendedAt(progs: Configs, res: Resolution, b: seq<State>, i: nat, p: nat) returns (j: nat)
    requires Behaviour(progs, res, b) && i < |b| && p < |b[i].history|
    ensures j < i && b[j].history == b[i].history[..p] && b[j+1].history == b[i].history[..p+1]
  {
    hide Enabled, Apply;
    assert i > 0;
    assert Next(progs, res, b[i-1], b[i]);
    var step :| Enabled(progs, res, b[i-1], step) && b[i] == Apply(progs, res, b[i-1], step);
    HistoryStep(progs, res, b[i-1], step);
    if p < |b[i-1].history| {
      j := AppendedAt(progs, res, b, i - 1, p);
    } else {
      j := i - 1;
      assert b[i].history[..p+1] == b[i].history;
    }
  }

  /** A poll that logs the dependency found it healthy at that moment. */
  lemma ObservedHealthy(progs: Configs, res: Resolution, s: State, step: Step, w: WorkerId, d: Name)
    requires Enabled(progs, res, s, step) && Apply(progs, res, s, step).history == s.history + [Observed(w, d)]
    ensures d in s.status && s.status[d] == Healthy
  {
    var h := Apply(progs, res, s, step).history;
    assert h[|s.history|] == Observed(w, d);
  }

  /** In state `j` of the run, after `w` began and before event `k`, `d` was healthy and `w` saw it. */
  ghost predicate SawHealthy(b: seq<State>, j: nat, k: nat, w: WorkerId, d: Name) {
    && j + 1 < |b| && d in b[j].status && b[j].status[d] == Healthy
    && Began(w) in b[j].history && |b[j].history| < k && b[j+1].history == b[j].history + [Observed(w, d)]
  }

  /** Whenever a process is launched, this very attempt has, since it began, found each dependency in the healthy state,
      in some earlier state of the run. */
  lemma DependenciesSeenHealthy(progs: Configs, res: Resolution, b: seq<State>, k: nat)
    requires Behaviour(progs, res, b) && k < |b[|b|-1].history| && b[|b|-1].history[k].Launched?
    ensures var e := b[|b|-1].history[k];
            e.name in progs && forall d | d in progs[e.name].dependsOn :: exists j :: SawHealthy(b, j, k, e.w, d)
  {
    hide Enabled, Apply;
    var last := |b| - 1;
    var h := b[last].history;
    LaunchAfterDependencies(progs, res, b[last], k);
    forall d | d in progs[h[k].name].dependsOn ensures exists j :: SawHealthy(b, j, k, h[k].w, d) {
      var x, p :| 0 <= x < p < k && p < |h| && h[x] == Began(h[k].w) && h[p] == Observed(h[k].w, d) &&
                LaunchedBefore(h, p, d);
      var j := AppendedAt(progs, res, b, last, p);
      assert b[j].history[x] == Began(h[k].w) && b[j+1].history == b[j].history + [h[p]];
      assert Next(progs, res, b[j], b[j+1]);
      var step :| Enabled(progs, res, b[j], step) && b[j+1] == Apply(progs, res, b[j], step);
      ObservedHealthy(progs, res, b[j], step, h[k].w, d);
      assert SawHealthy(b, j, k, h[k].w, d);
    }
  }

  /** Positions at which the members of a chain were launched, in chain order. */
  ghost predicate LaunchedInOrder(h: seq<Event>, c: seq<Name>, at: seq<nat>) {
    && |at| == |c|
    && (forall i | 0 <= i < |at| :: at[i] < |h| && h[at[i]].Launched? && h[at[i]].name == c[i])
    && (forall i, j | 0 <= i < j < |at| :: at[i] < at[j])
  }

  /** Transitively: whenever a program is launched, every chain of dependencies below it has been launched
      bottom-up before it. */
  lemma {:induction false} ChainsLaunchBottomUp(progs: Configs, res: Resolution, s: State, c: seq<Name>, k: nat)
    returns (at: seq<nat>)
    requires Reachable(progs, res, s) && Chain(progs, c)
    requires k < |s.history| && s.history[k].Launched? && s.history[k].name == c[|c|-1]
    ensures LaunchedInOrder(s.history, c, at) && at[|c|-1] == k
    decreases |c|
  {
    hide Reachable, ObservedBefore;
    at := [k];
    if |c| > 1 {
      var b, n := c[..|c|-1], c[|c|-1];
      assert DependsOn(progs, n, c[|c|-2]);
      LaunchAfterDependencies(progs, res, s, k);
      var l := ObservedWasLaunched(s.history, k, s.history[k].w, c[|c|-2]);
      var below := ChainsLaunchBottomUp(progs, res, s, b, l);
      at := below + [k];
    }
  }

  /** Programs that can only wait for each other are never launched, however often they are asked to start. */
  lemma {:induction false} StuckNeverLaunched(progs: Configs, res: Resolution, s: State, stuck: set<Name>, k: nat)
    requires Reachable(progs, res, s) && StuckSet(progs, stuck)
    requires k < |s.history| && s.history[k].Launched?
    ensures s.history[k].name !in stuck
  {
    LaunchAfterDependencies(progs, res, s, k);
    var n := s.history[k].name;
    if n in stuck && DependsInto(progs, n, stuck) {
      var d :| d in stuck && DependsOn(progs, n, d);
      var l := ObservedWasLaunched(s.history, k, s.history[k].w, d);
      StuckNeverLaunched(progs, res, s, stuck, l);
    }
  }

  ghost predicate WorkerReturned(s: State, w: WorkerId, ok: bool) {
    w in s.workers && s.workers[w].pc == Returned(ok)
  }

  /** In either phase, a group's workers exist only once StartProgram has returned nil for every member of every
      earlier group of that phase; after an error no later group begins; members belong to the phase. */
  lemma PhaseBarrier(progs: Configs, res: Resolution, s: State, run: nat, slot: G.Slot)
    requires Reachable(progs, res, s) && Member(run, slot) in s.workers
    ensures run in s.phases && InPhase(progs, s.phases[run], slot.name) && res.Groups?
    ensures slot.group < |res.groups| && slot.name in res.groups[slot.group]
    ensures forall g: nat, n | g < slot.group && n in res.groups[g] && InPhase(progs, s.phases[run], n) ::
              WorkerReturned(s, Member(run, G.Slot(g, n)), true)
    ensures forall other | WorkerReturned(s, Member(run, other), false) :: slot.group <= other.group
  {
    ReachableInv(progs, res, s);
    var r := s.runs[run];
    assert RunInv(progs, res, r, s.phases[run]) && SlotInv(s.workers, r, run, slot);
    G.Barrier(r);
    forall g: nat, n | g < slot.group && n in res.groups[g] && InPhase(progs, s.phases[run], n)
      ensures WorkerReturned(s, Member(run, G.Slot(g, n)), true)
    {
      assert n in r.groups[g];
      assert G.ReturnedOk(r, G.Slot(g, n));
      assert SlotInv(s.workers, r, run, G.Slot(g, n));
    }
    forall other | WorkerReturned(s, Member(run, other), false) ensures slot.group <= other.group {
      assert SlotInv(s.workers, r, run, other);
    }
  }

  /** A phase that succeeds has started, without error, every program of the phase in every group. */
  lemma PhaseSuccess(progs: Configs, res: Resolution, s: State, run: nat, g: nat, n: Name)
    requires Reachable(progs, res, s) && run in s.runs && s.runs[run].status == G.Succeeded
    requires run in s.phases && res.Groups? && g < |res.groups| && n in res.groups[g] &&
              InPhase(progs, s.phases[run], n)
    ensures WorkerReturned(s, Member(run, G.Slot(g, n)), true)
  {
    ReachableInv(progs, res, s);
    var r := s.runs[run];
    assert RunInv(progs, res, r, s.phases[run]) && SlotInv(s.workers, r, run, G.Slot(g, n));
    G.Barrier(r);
    assert n in r.groups[g];
    assert G.ReturnedOk(r, G.Slot(g, n));
  }

  /** A dependency in the resolver's graph, for a launched program, in terms of the program table. */
  lemma SameDependency(progs: Configs, m: Configs, n: Name, d: Name)
    requires Tables(progs, m) && WellFormed(m)
    requires DependsOn(progs, n, d) && progs[n].enabled
    ensures DependsOn(m, n, d) && d in m && d in progs
    ensures progs[d] == m[d] && progs[d].phase in {PHASE_EARLY, PHASE_POST}
    ensures progs[n].phase == PHASE_EARLY ==> progs[d].phase == PHASE_EARLY
  {
    assert DependsOn(m, n, d) && !Dangling(m, n, d) && !CrossesPhase(m, n, d);
  }

  /** StartPhase("early") spawns only early programs, and every dependency of each is an early program whose
      worker returned nil in a strictly earlier group of the same run. */
  lemma EarlyIsSelfContained(progs: Configs, m: Configs, res: Resolution, s: State, run: nat, slot: G.Slot, d: Name)
    requires Tables(progs, m) && Justified(m, res) && Reachable(progs, res, s)
    requires Member(run, slot) in s.workers && run in s.phases && s.phases[run] == PHASE_EARLY
    requires DependsOn(progs, slot.name, d)
    ensures progs[slot.name].phase == PHASE_EARLY && d in progs && progs[d].phase == PHASE_EARLY
    ensures exists g: nat | g < slot.group :: WorkerReturned(s, Member(run, G.Slot(g, d)), true)
  {
    PhaseBarrier(progs, res, s, run, slot);
    SameDependency(progs, m, slot.name, d);
    var g: nat :| g < |res.groups| && d in res.groups[g];
    assert WorkerReturned(s, Member(run, G.Slot(g, d)), true);
  }

  /** The dependency a waiting worker is polling. */
  ghost predicate Awaits(progs: Configs, s: State, w: WorkerId, d: Name) {
    && w in s.workers && s.workers[w].pc.WaitingFor? && s.workers[w].name in progs
    && s.workers[w].pc.dep < |progs[s.workers[w].name].dependsOn|
    && d == progs[s.workers[w].name].dependsOn[s.workers[w].pc.dep]
  }

  /** The worker is polling some dependency. */
  ghost predicate Polls(progs: Configs, s: State, w: WorkerId) {
    exists d :: Awaits(progs, s, w, d)
  }

  ghost predicate Scheduled(groups: seq<seq<Name>>, n: Name) {
    exists i | 0 <= i < |groups| :: n in groups[i]
  }

  ghost function GroupOf(groups: seq<seq<Name>>, n: Name): (g: nat)
    requires Scheduled(groups, n)
    ensures g < |groups| && n in groups[g]
  {
    var i: nat :| i < |groups| && n in groups[i]; i
  }

  lemma {:induction false} Least(names: set<Name>, groups: seq<seq<Name>>) returns (n: Name)
    requires names != {} && forall x | x in names :: Scheduled(groups, x)
    ensures n in names && forall x | x in names :: GroupOf(groups, n) <= GroupOf(groups, x)
    decreases |names|
  {
    n :| n in names;
    if names != {n} {
      var u := Least(names - {n}, groups);
      if GroupOf(groups, u) < GroupOf(groups, n) {
        n := u;
      }
    }
  }

  lemma WaitingIsScheduled(progs: Configs, m: Configs, res: Resolution, s: State, v: WorkerId, e: Name)
    requires Tables(progs, m) && Justified(m, res) && res.Groups?
    requires Inv(progs, s) && Awaits(progs, s, v, e)
    ensures DependsOn(m, s.workers[v].name, e)
    ensures Scheduled(res.groups, s.workers[v].name)
    ensures Scheduled(res.groups, e)
  {
    assert WorkerInv(progs, s.history, v, s.workers[v]);
    assert DependsOn(progs, s.workers[v].name, e);
    SameDependency(progs, m, s.workers[v].name, e);
  }

  ghost function NamesOf(s: State, workers: set<WorkerId>): (names: set<Name>)
    requires workers <= s.workers.Keys
    ensures forall v | v in workers :: s.workers[v].name in names
    ensures workers != {} ==> names != {}
  {
    var names := set v | v in workers :: s.workers[v].name;
    assert forall v | v in workers :: s.workers[v].name in names;
    names
  }

  /** Following waits ends: once resolution succeeds, any set of waiting workers has one that awaits a program
      none of them is starting, so no set of workers can wait only for itself. */
  lemma NoDeadlock(progs: Configs, m: Configs, res: Resolution, s: State, waiting: set<WorkerId>)
    returns (w: WorkerId, d: Name)
    requires Tables(progs, m) && Justified(m, res) && res.Groups?
    requires Reachable(progs, res, s)
    requires waiting != {} && waiting <= s.workers.Keys
    requires forall v | v in waiting :: Polls(progs, s, v)
    ensures w in waiting && Awaits(progs, s, w, d)
    ensures forall v | v in waiting :: s.workers[v].name != d
  {
    ReachableInv(progs, res, s);
    var names := NamesOf(s, waiting);
    forall x | x in names ensures Scheduled(res.groups, x) {
      var v :| v in waiting && s.workers[v].name == x;
      assert Polls(progs, s, v);
      var e :| Awaits(progs, s, v, e);
      WaitingIsScheduled(progs, m, res, s, v, e);
    }
    w, d := LeastWaiter(progs, m, res, s, waiting, names);
  }

  lemma LeastWaiter(progs: Configs, m: Configs, res: Resolution, s: State, waiting: set<WorkerId>, names: set<Name>)
    returns (w: WorkerId, d: Name)
    requires Tables(progs, m) && Justified(m, res) && res.Groups? && Inv(progs, s)
    requires waiting <= s.workers.Keys && names == NamesOf(s, waiting) && names != {}
    requires forall v | v in waiting :: Polls(progs, s, v)
    requires forall x | x in names :: Scheduled(res.groups, x)
    ensures w in waiting && Awaits(progs, s, w, d)
    ensures d !in names
  {
    var n := Least(names, res.groups);
    w :| w in waiting && s.workers[w].name == n;
    assert Polls(progs, s, w);
    d :| Awaits(progs, s, w, d);
    WaitingIsScheduled(progs, m, res, s, w, d);
    assert GroupOf(res.groups, d) < GroupOf(res.groups, n);
  }
}

/** Static resolution against dynamic launching: resolution succeeds exactly when every enabled program can be launched
    in some run and no early program depends on a post one. */
module Launchability {
  import opened NameOrder
  import opened Layering
  import opened Programs
  import opened Launcher
  import opened LaunchSafety
  import opened LaunchMeaning

  /** Some run launches the program. */
  ghost predicate CanLaunch(progs: Configs, res: Resolution, n: Name) {
    exists s :: Reachable(progs, res, s) && LaunchedIn(s.history, n)
  }

  ghost predicate AllLaunchable(progs: Configs, m: Configs, res: Resolution) {
    forall n | n in m :: CanLaunch(progs, res, n)
  }

  ghost predicate NoCrossing(m: Configs) {
    forall n, d :: !CrossesPhase(m, n, d)
  }

  // ---- building runs ----

  /** One step that is no exit, failed health check or stop of any program. */
  ghost predicate Calm(progs: Configs, res: Resolution, s: State, t: State) {
    exists step: Step :: !step.Changed? && Enabled(progs, res, s, step) && t == Apply(progs, res, s, step)
  }

  /** Such steps lead from `o` to `s`. */
  ghost predicate Leads(progs: Configs, res: Resolution, o: State, s: State) {
    exists c: seq<State> :: Path(progs, res, c) && c != [] && c[0] == o && c[|c|-1] == s
  }

  ghost predicate Path(progs: Configs, res: Resolution, c: seq<State>) {
    c != [] && forall i, j | 0 <= i && i + 1 == j < |c| :: Calm(progs, res, c[i], c[j])
  }

  lemma Stay(progs: Configs, res: Resolution, o: State)
    ensures Leads(progs, res, o, o)
  {
    var c := [o];
    assert Path(progs, res, c) && c[0] == o && c[|c|-1] == o;
  }

  lemma LeadsReach(progs: Configs, res: Resolution, s: State)
    requires Leads(progs, res, Init(progs), s)
    ensures Reachable(progs, res, s)
  {
    hide Next, Init, Calm;
    var c :| Path(progs, res, c) && c != [] && c[0] == Init(progs) && c[|c|-1] == s;
    forall i, j | 0 <= i && i + 1 == j < |c| ensures Next(progs, res, c[i], c[j]) {
      CalmIsNext(progs, res, c[i], c[j]);
    }
    assert Behaviour(progs, res, c);
  }

  /** A step of a run, and one that spares every program. */
  lemma CalmIsNext(progs: Configs, res: Resolution, s: State, t: State)
    requires Calm(progs, res, s, t)
    ensures Next(progs, res, s, t) && forall n :: Spares(progs, res, n, s, t)
  {
    hide Enabled, Apply;
  }

  lemma StepIsCalm(progs: Configs, res: Resolution, s: State, step: Step)
    requires Enabled(progs, res, s, step) && !step.Changed?
    ensures Calm(progs, res, s, Apply(progs, res, s, step))
  {
    hide Enabled, Apply;
  }

  lemma PathSnoc(progs: Configs, res: Resolution, c: seq<State>, t: State)
    requires Path(progs, res, c) && Calm(progs, res, c[|c|-1], t)
    ensures Path(progs, res, c + [t])
  {
    hide Calm;
  }

  lemma Take(progs: Configs, res: Resolution, o: State, s: State, step: Step) returns (t: State)
    requires Leads(progs, res, o, s) && Enabled(progs, res, s, step) && !step.Changed?
    ensures t == Apply(progs, res, s, step) && Leads(progs, res, o, t)
  {
    hide Enabled, Apply, Calm, Path;
    t := Apply(progs, res, s, step);
    StepIsCalm(progs, res, s, step);
    var b :| Path(progs, res, b) && b != [] && b[0] == o && b[|b|-1] == s;
    PathSnoc(progs, res, b, t);
    assert (b + [t])[0] == o;
  }

  /** Where worker `w` for `n` stands, and what the statuses are. */
  ghost predicate Standing(s: State, w: WorkerId, n: Name, pc: Pc, status: Statuses) {
    w in s.workers && s.workers[w] == Worker(n, pc) && s.status == status
  }

  /** Only worker `w` moved, and nothing was forgotten. */
  ghost predicate OnlyMoved(s: State, t: State, w: WorkerId) {
    w in t.workers && t.workers == s.workers[w := t.workers[w]] && s.history <= t.history
  }

  /** The last event is a launch, and it is new. */
  ghost predicate EndsInLaunch(s: State, t: State, w: WorkerId, n: Name) {
    |t.history| > |s.history| && t.history[|t.history|-1] == Launched(w, n)
  }

  lemma BeginOne(progs: Configs, res: Resolution, o: State, s: State, n: Name, k: nat) returns (t: State)
    requires Leads(progs, res, o, s) && Command(k) !in s.workers
    requires n in s.status && !SkipsStart(s.status[n])
    ensures Leads(progs, res, o, t) && Standing(t, Command(k), n, WaitingFor(0), s.status[n := WaitingDeps])
    ensures OnlyMoved(s, t, Command(k))
  {
    hide Leads;
    t := Take(progs, res, o, s, CallStart(k, n));
    t := Take(progs, res, o, t, Enter(Command(k)));
  }

  /** Polling healthy dependencies one after another. */
  lemma {:induction false} ObserveAll(progs: Configs, res: Resolution, o: State, s: State, w: WorkerId, n: Name, i: nat)
    returns (t: State)
    requires Leads(progs, res, o, s) && n in progs && i <= |progs[n].dependsOn| &&
              Standing(s, w, n, WaitingFor(i), s.status)
    requires forall d | d in progs[n].dependsOn :: d in s.status && s.status[d] == Healthy
    ensures Leads(progs, res, o, t) && Standing(t, w, n, WaitingFor(|progs[n].dependsOn|), s.status)
    ensures OnlyMoved(s, t, w) && t.runs == s.runs && t.phases == s.phases
    decreases |progs[n].dependsOn| - i
  {
    hide Leads;
    t := s;
    if i < |progs[n].dependsOn| {
      assert progs[n].dependsOn[i] in progs[n].dependsOn;
      var u := Take(progs, res, o, s, ObserveHealthy(w));
      t := ObserveAll(progs, res, o, u, w, n, i + 1);
    }
  }

  lemma Delay(progs: Configs, res: Resolution, o: State, s: State, w: WorkerId, n: Name) returns (t: State)
    requires Leads(progs, res, o, s) && n in progs && n in s.status &&
              Standing(s, w, n, WaitingFor(|progs[n].dependsOn|), s.status)
    ensures Leads(progs, res, o, t) && Standing(t, w, n, Launching, s.status[n := ProgState.Starting])
    ensures OnlyMoved(s, t, w) && t.history == s.history && t.runs == s.runs && t.phases == s.phases
  {
    hide Leads;
    t := Take(progs, res, o, s, DepsDone(w));
    if progs[n].startDelay > 0 {
      t := Take(progs, res, o, t, DelayOver(w));
    }
  }

  lemma LaunchNow(progs: Configs, res: Resolution, o: State, s: State, w: WorkerId, n: Name) returns (t: State)
    requires Leads(progs, res, o, s) && n in progs && n in s.status && Standing(s, w, n, Launching, s.status)
    ensures Leads(progs, res, o, t) && Standing(t, w, n, Settling, s.status[n := ProgState.Running]) &&
              LaunchedIn(t.history, n)
    ensures OnlyMoved(s, t, w) && t.history == s.history + [Launched(w, n)] && t.runs == s.runs && t.phases == s.phases
  {
    hide Leads;
    t := Take(progs, res, o, s, Exec(w, true));
    LaunchedGrows(s.history, Launched(w, n), n);
    t := Take(progs, res, o, t, Record(w));
  }

  lemma BecomeHealthy(progs: Configs, res: Resolution, o: State, s: State, w: WorkerId, n: Name) returns (t: State)
    requires Leads(progs, res, o, s) && n in progs && n in s.status && LaunchedIn(s.history, n)
    requires Standing(s, w, n, Settling, s.status)
    ensures Leads(progs, res, o, t) && t.status == s.status[n := Healthy] && t.history == s.history
    ensures OnlyMoved(s, t, w) && t.workers[w] == Worker(n, Returned(true))
    ensures t.runs == Return(s, w, true).runs && t.phases == s.phases
  {
    hide Leads, LaunchedIn;
    t := Take(progs, res, o, s, Settle(w));
    if progs[n].healthCheck != "" {
      t := Take(progs, res, o, t, HealthPassed(n));
    }
  }

  /** The rest of an attempt once it waits, all dependencies being healthy. */
  lemma FinishOne(progs: Configs, res: Resolution, o: State, s: State, n: Name, k: nat) returns (t: State)
    requires Leads(progs, res, o, s) && Standing(s, Command(k), n, WaitingFor(0), s.status)
    requires n in progs && n in s.status && n !in progs[n].dependsOn
    requires forall d | d in progs[n].dependsOn :: d in s.status && s.status[d] == Healthy
    ensures Leads(progs, res, o, t) && t.status == s.status[n := Healthy] && LaunchedIn(t.history, n)
    ensures OnlyMoved(s, t, Command(k)) && t.workers[Command(k)] == Worker(n, Returned(true))
    ensures EndsInLaunch(s, t, Command(k), n)
  {
    hide Leads, LaunchedIn;
    var b := ObserveAll(progs, res, o, s, Command(k), n, 0);
    var c := Delay(progs, res, o, b, Command(k), n);
    var d := LaunchNow(progs, res, o, c, Command(k), n);
    t := BecomeHealthy(progs, res, o, d, Command(k), n);
  }

  /** A start command for a program whose dependencies are all healthy can bring it up, and changes nothing else. */
  lemma LaunchOne(progs: Configs, res: Resolution, o: State, s: State, n: Name, k: nat) returns (t: State)
    requires Leads(progs, res, o, s) && Command(k) !in s.workers && n in progs && s.status.Keys == progs.Keys
    requires !SkipsStart(s.status[n]) && n !in progs[n].dependsOn
    requires forall d | d in progs[n].dependsOn :: d in s.status && s.status[d] == Healthy
    ensures Leads(progs, res, o, t) && t.status == s.status[n := Healthy] && LaunchedIn(t.history, n)
    ensures OnlyMoved(s, t, Command(k)) && t.workers[Command(k)] == Worker(n, Returned(true))
    ensures EndsInLaunch(s, t, Command(k), n)
  {
    hide Leads, LaunchedIn;
    var a := BeginOne(progs, res, o, s, n, k);
    t := FinishOne(progs, res, o, a, n, k);
  }

  /** The members of the groups before `g`, and the first `i` of group `g`. */
  ghost function UpTo(groups: seq<seq<Name>>, g: nat, i: nat): set<Name>
    requires g < |groups| && i <= |groups[g]|
  {
    (set x, j | 0 <= j < g && x in groups[j] :: x) + Members(groups[g][..i])
  }

  /** Everything in `done` is healthy, everything else as at the beginning. */
  ghost function StatusAfter(progs: Configs, done: set<Name>): Statuses {
    map n | n in progs :: if n in done then Healthy else Init(progs).status[n]
  }

  ghost predicate BroughtUp(progs: Configs, res: Resolution, s: State, done: set<Name>, k: nat) {
    && Leads(progs, res, Init(progs), s) && s.status == StatusAfter(progs, done)
    && (forall n | n in done :: LaunchedIn(s.history, n))
    && (forall j: nat | j >= k :: Command(j) !in s.workers)
  }

  lemma LaunchedStays(h: seq<Event>, g: seq<Event>, n: Name)
    requires h <= g && LaunchedIn(h, n)
    ensures LaunchedIn(g, n)
  {
  }

  lemma BringUpNext(progs: Configs, res: Resolution, s: State, done: set<Name>, n: Name, k: nat) returns (t: State)
    requires BroughtUp(progs, res, s, done, k) && n in progs && progs[n].enabled && n !in done &&
              n !in progs[n].dependsOn
    requires forall d | d in progs[n].dependsOn :: d in progs && d in done
    ensures BroughtUp(progs, res, t, done + {n}, k + 1)
  {
    hide Leads, LaunchedIn;
    t := LaunchOne(progs, res, Init(progs), s, n, k);
    forall x | x in done + {n} ensures LaunchedIn(t.history, x) {
      if x != n {
        LaunchedStays(s.history, t.history, x);
      }
    }
    assert t.status == StatusAfter(progs, done + {n});
  }

  ghost predicate Closed(progs: Configs, done: set<Name>, n: Name) {
    n in progs && progs[n].enabled && n !in done && n !in progs[n].dependsOn
    && forall d | d in progs[n].dependsOn :: d in progs && d in done
  }

  /** The next member of a group depends only on what came before. */
  lemma NextIsClosed(progs: Configs, m: Configs, groups: seq<seq<Name>>, g: nat, i: nat)
    requires Tables(progs, m) && WellFormed(m) && IsLayering(m, groups)
    requires g < |groups| && i < |groups[g]|
    ensures Closed(progs, UpTo(groups, g, i), groups[g][i])
    ensures UpTo(groups, g, i + 1) == UpTo(groups, g, i) + {groups[g][i]}
  {
    var n := groups[g][i];
    assert n in groups[g];
    BeforeStrictTotalOrder(m);
    assert Ascending(m, groups[g]);
    assert n !in groups[g][..i];
    MembersSnoc(groups[g], i);
    forall d | d in progs[n].dependsOn ensures d in progs && d in UpTo(groups, g, i) && d != n {
      assert DependsOn(m, n, d) && !SelfDependent(m, n) && !Dangling(m, n, d);
      var k: nat :| k < |groups| && d in groups[k];
    }
  }

  lemma GroupDone(groups: seq<seq<Name>>, g: nat)
    requires 0 < g < |groups|
    ensures UpTo(groups, g, 0) == UpTo(groups, g - 1, |groups[g-1]|)
  {
    assert groups[g-1][..|groups[g-1]|] == groups[g-1];
  }

  /** Starting the programs one by one in resolved order brings all of them up. */
  lemma {:induction false} BringUp(progs: Configs, m: Configs, res: Resolution, g: nat, i: nat)
    returns (s: State, k: nat)
    requires Tables(progs, m) && res.Groups? && Justified(m, res)
    requires g < |res.groups| && i <= |res.groups[g]|
    ensures BroughtUp(progs, res, s, UpTo(res.groups, g, i), k)
    decreases g, i
  {
    hide BroughtUp, WellFormed, IsLayering, Tables, UpTo;
    if i > 0 {
      s, k := BringUp(progs, m, res, g, i - 1);
      NextIsClosed(progs, m, res.groups, g, i - 1);
      s := BringUpNext(progs, res, s, UpTo(res.groups, g, i - 1), res.groups[g][i-1], k);
      k := k + 1;
    } else if g > 0 {
      s, k := BringUp(progs, m, res, g - 1, |res.groups[g-1]|);
      GroupDone(res.groups, g);
    } else {
      NothingUp(progs, res, res.groups);
      s, k := Init(progs), 0;
    }
  }

  lemma NothingUp(progs: Configs, res: Resolution, groups: seq<seq<Name>>)
    requires groups != []
    ensures BroughtUp(progs, res, Init(progs), UpTo(groups, 0, 0), 0)
  {
    Stay(progs, res, Init(progs));
    assert UpTo(groups, 0, 0) == {};
    assert StatusAfter(progs, {}) == Init(progs).status;
  }

  /** Resolution succeeded: every enabled program can be launched. */
  lemma ScheduledCanLaunch(progs: Configs, m: Configs, res: Resolution, n: Name)
    requires Tables(progs, m) && res.Groups? && Justified(m, res) && n in m
    ensures CanLaunch(progs, res, n)
  {
    var g: nat :| g < |res.groups| && n in res.groups[g];
    var i: nat :| i < |res.groups[g]| && res.groups[g][i] == n;
    var s, k := BringUp(progs, m, res, g, i + 1);
    assert n in UpTo(res.groups, g, i + 1);
    LeadsReach(progs, res, s);
  }

  // ---- the other direction ----

  lemma NotInStuckSet(progs: Configs, m: Configs, res: Resolution, n: Name, stuck: set<Name>)
    requires Tables(progs, m) && CanLaunch(progs, res, n) && StuckSet(m, stuck)
    ensures n !in stuck
  {
    forall x | x in stuck ensures x in progs && DependsInto(progs, x, stuck) {
      var d :| d in stuck && DependsOn(m, x, d);
      assert DependsOn(progs, x, d);
    }
    var s :| Reachable(progs, res, s) && LaunchedIn(s.history, n);
    var w :| Launched(w, n) in s.history;
    var k: nat :| k < |s.history| && s.history[k] == Launched(w, n);
    StuckNeverLaunched(progs, res, s, stuck, k);
  }

  /** A launched program's dependencies are enabled programs. */
  lemma NotDangling(progs: Configs, m: Configs, res: Resolution, n: Name, d: Name)
    requires Tables(progs, m) && n in m && CanLaunch(progs, res, n)
    ensures !Dangling(m, n, d)
  {
    if DependsOn(m, n, d) {
      var s :| Reachable(progs, res, s) && LaunchedIn(s.history, n);
      var w :| Launched(w, n) in s.history;
      var k: nat :| k < |s.history| && s.history[k] == Launched(w, n);
      LaunchAfterDependencies(progs, res, s, k);
      var l := ObservedWasLaunched(s.history, k, w, d);
      LaunchAfterDependencies(progs, res, s, l);
    }
  }

  /** A cycle's members are stuck. */
  lemma CycleIsStuck(m: Configs, c: seq<Name>)
    requires Cycle(m, c)
    ensures StuckSet(m, Members(c)) && c[0] in Members(c)
  {
    forall n | n in Members(c) ensures n in m && DependsInto(m, n, Members(c)) {
      var j :| 0 <= j < |c| && c[j] == n;
      var i := if j > 0 then j - 1 else |c| - 2;
      assert DependsOn(m, n, c[i]) && c[i] in Members(c);
    }
  }

  lemma AllLaunchableResolves(progs: Configs, m: Configs, res: Resolution)
    requires Tables(progs, m) && Justified(m, res)
    requires AllLaunchable(progs, m, res) && NoCrossing(m)
    ensures res.Groups?
  {
    hide CanLaunch, Justified, StuckSet, Tables;
    forall n, d | DependsOn(m, n, d) ensures !SelfDependent(m, n) && !Dangling(m, n, d) {
      NotDangling(progs, m, res, n, d);
      if SelfDependent(m, n) {
        SelfIsStuck(m, n);
        NotInStuckSet(progs, m, res, n, {n});
      }
    }
    assert WellFormed(m);
    forall c ensures !Cycle(m, c) {
      if Cycle(m, c) {
        CycleIsStuck(m, c);
        NotInStuckSet(progs, m, res, c[0], Members(c));
      }
    }
    ResolutionDetermined(m, res, res);
  }

  lemma SelfIsStuck(m: Configs, n: Name)
    requires SelfDependent(m, n)
    ensures StuckSet(m, {n})
  {
  }

  lemma ResolvedIsLaunchable(progs: Configs, m: Configs, res: Resolution)
    requires Tables(progs, m) && Justified(m, res) && res.Groups?
    ensures AllLaunchable(progs, m, res) && NoCrossing(m)
  {
    hide CanLaunch, IsLayering, Tables;
    forall n | n in m ensures CanLaunch(progs, res, n) {
      ScheduledCanLaunch(progs, m, res, n);
    }
    forall n, d ensures !CrossesPhase(m, n, d) {
      assert DependsOn(m, n, d) ==> !CrossesPhase(m, n, d);
    }
  }

  /** The resolver accepts a configuration exactly when every enabled program can be launched in some run of the start
      path and no early program depends on a post one: its checks refuse nothing that would work, save by phase, and
      let nothing through that would hang. */
  lemma ResolvesIffLaunchable(progs: Configs, m: Configs, res: Resolution)
    requires Tables(progs, m) && Justified(m, res)
    ensures res.Groups? <==> AllLaunchable(progs, m, res) && NoCrossing(m)
  {
    hide AllLaunchable, NoCrossing, Tables, Justified;
    if res.Groups? {
      ResolvedIsLaunchable(progs, m, res);
    } else if AllLaunchable(progs, m, res) && NoCrossing(m) {
      AllLaunchableResolves(progs, m, res);
    }
  }

  // ---- when a running program is launched again ----

  /** "Already-running programs are skipped" is decided when an attempt begins, not when it launches: of two
      overlapping start commands, the second launches the program again after the first has made it healthy. */
  lemma OverlapLaunchesAgain(progs: Configs, res: Resolution, s: State, n: Name, j: nat, k: nat)
    returns (u: State, t: State)
    requires Leads(progs, res, Init(progs), s) && j != k && Command(j) !in s.workers && Command(k) !in s.workers
    requires n in progs && s.status.Keys == progs.Keys && !SkipsStart(s.status[n]) && n !in progs[n].dependsOn
    requires forall d | d in progs[n].dependsOn :: d in s.status && s.status[d] == Healthy
    ensures Leads(progs, res, Init(progs), u) && n in u.status && u.status[n] == Healthy && LaunchedIn(u.history, n)
    ensures Leads(progs, res, u, t) && t.history == u.history + [Launched(Command(k), n)]
  {
    hide Leads, LaunchedIn;
    var o := Init(progs);
    var a := BeginOne(progs, res, o, s, n, j);
    var b := BeginOne(progs, res, o, a, n, k);
    var c := ObserveAll(progs, res, o, b, Command(k), n, 0);
    u := FinishOne(progs, res, o, c, n, j);
    Stay(progs, res, u);
    var v := Delay(progs, res, u, u, Command(k), n);
    t := LaunchNow(progs, res, u, v, Command(k), n);
  }

  /** An attempt that can still end in a launch or a failure. */
  predicate Unsettled(pc: Pc) {
    pc.WaitingFor? || pc.Delaying? || pc.Launching? || pc.Failing?
  }

  ghost predicate Attempted(s: State, n: Name) {
    exists w :: w in s.workers && s.workers[w].name == n && Unsettled(s.workers[w].pc)
  }

  predicate MarkedUp(s: State, n: Name) {
    n in s.status && (s.status[n] == Running || s.status[n] == Healthy)
  }

  predicate LaunchesBetween(h: seq<Event>, g: seq<Event>, n: Name) {
    exists p :: |h| <= p < |g| && g[p].Launched? && g[p].name == n
  }

  /** One step in which `n` itself does not exit, fail its health check or get stopped. */
  ghost predicate Spares(progs: Configs, res: Resolution, n: Name, s: State, t: State) {
    exists step: Step :: !(step.Changed? && step.name == n) && Enabled(progs, res, s, step) &&
              t == Apply(progs, res, s, step)
  }

  /** A continuation of `u` in which `n` is left alone. */
  ghost predicate Continues(progs: Configs, res: Resolution, n: Name, u: State, c: seq<State>) {
    c != [] && c[0] == u && forall i, j | 0 <= i && i + 1 == j < |c| :: Spares(progs, res, n, c[i], c[j])
  }

  lemma MarkStays(progs: Configs, res: Resolution, s: State, step: Step, n: Name)
    requires MarkedUp(s, n) && !Attempted(s, n) && Enabled(progs, res, s, step) && !(step.Changed? && step.name == n)
    ensures MarkedUp(Apply(progs, res, s, step), n)
  {
    hide PhaseGroups, LaunchedIn;
  }

  lemma WorkerSettles(progs: Configs, res: Resolution, s: State, step: Step, n: Name)
    requires MarkedUp(s, n) && Enabled(progs, res, s, step) && OfWorker(step)
    requires s.workers[step.w].name == n ==> !Unsettled(s.workers[step.w].pc)
    ensures var t := Apply(progs, res, s, step);
            step.w in t.workers && (t.workers[step.w].name == n ==> !Unsettled(t.workers[step.w].pc))
  {
    hide LaunchedIn;
  }

  lemma SettledStep(progs: Configs, res: Resolution, s: State, step: Step, n: Name)
    requires MarkedUp(s, n) && !Attempted(s, n) && Enabled(progs, res, s, step) && !(step.Changed? && step.name == n)
    ensures MarkedUp(Apply(progs, res, s, step), n) && !Attempted(Apply(progs, res, s, step), n)
  {
    MarkStays(progs, res, s, step, n);
    hide Apply, MarkedUp;
    var t := Apply(progs, res, s, step);
    forall w | w in t.workers && t.workers[w].name == n ensures !Unsettled(t.workers[w].pc) {
      if OfWorker(step) && step.w == w {
        WorkerSettles(progs, res, s, step, n);
      } else {
        OthersStand(progs, res, s, step, w);
      }
    }
  }

  lemma SettledLaunchesNone(progs: Configs, res: Resolution, s: State, step: Step, n: Name)
    requires !Attempted(s, n) && Enabled(progs, res, s, step)
    ensures var t := Apply(progs, res, s, step);
            s.history <= t.history && !LaunchesBetween(s.history, t.history, n)
  {
    HistoryStep(progs, res, s, step);
    if step.Exec? && step.ok {
      assert s.workers[step.w].pc.Launching?;
    } else {
      QuietLog(progs, res, s, step);
    }
  }

  lemma {:induction false} SettledStays(progs: Configs, res: Resolution, n: Name, u: State, c: seq<State>, i: nat)
    requires Continues(progs, res, n, u, c) && MarkedUp(u, n) && !Attempted(u, n) && i < |c|
    ensures MarkedUp(c[i], n) && !Attempted(c[i], n)
    ensures u.history <= c[i].history && !LaunchesBetween(u.history, c[i].history, n)
  {
    hide Enabled, Apply, Attempted, MarkedUp;
    if i > 0 {
      SettledStays(progs, res, n, u, c, i - 1);
      assert Spares(progs, res, n, c[i-1], c[i]);
      var step: Step :| !(step.Changed? && step.name == n) && Enabled(progs, res, c[i-1], step) &&
                c[i] == Apply(progs, res, c[i-1], step);
      SettledStep(progs, res, c[i-1], step, n);
      SettledLaunchesNone(progs, res, c[i-1], step, n);
    }
  }

  lemma LeadsContinues(progs: Configs, res: Resolution, n: Name, u: State, t: State) returns (c: seq<State>)
    requires Leads(progs, res, u, t)
    ensures Continues(progs, res, n, u, c) && c[|c|-1] == t
  {
    hide Calm, Spares;
    c :| Path(progs, res, c) && c != [] && c[0] == u && c[|c|-1] == t;
    forall i, j | 0 <= i && i + 1 == j < |c| ensures Spares(progs, res, n, c[i], c[j]) {
      CalmIsNext(progs, res, c[i], c[j]);
    }
  }

  /** A launched program's dependencies have been launched, and it is none of them. */
  lemma DependenciesLaunched(progs: Configs, res: Resolution, s: State, n: Name)
    requires Reachable(progs, res, s) && LaunchedIn(s.history, n)
    ensures n in progs && n !in progs[n].dependsOn && forall d | d in progs[n].dependsOn :: LaunchedIn(s.history, d)
  {
    var w :| Launched(w, n) in s.history;
    var k: nat :| k < |s.history| && s.history[k] == Launched(w, n);
    LaunchAfterDependencies(progs, res, s, k);
    forall d | d in progs[n].dependsOn ensures LaunchedIn(s.history, d) {
      var l := ObservedWasLaunched(s.history, k, w, d);
      assert Launched(s.history[l].w, d) in s.history;
    }
    if n in progs[n].dependsOn {
      SelfIsStuck(progs, n);
      StuckNeverLaunched(progs, res, s, {n}, k);
    }
  }

  /** `n` and its workers are untouched, what was healthy still is, and nothing is forgotten. */
  ghost predicate Kept(s: State, t: State, n: Name) {
    && t.status.Keys == s.status.Keys && s.history <= t.history
    && (forall x | x in s.status && s.status[x] == Healthy :: t.status[x] == Healthy)
    && (n in s.status ==> t.status[n] == s.status[n])
    && (forall w | w in s.workers && s.workers[w].name == n :: w in t.workers && t.workers[w] == s.workers[w])
  }

  lemma KeptTransitive(s: State, t: State, r: State, n: Name)
    requires Kept(s, t, n) && Kept(t, r, n)
    ensures Kept(s, r, n)
  {
  }

  /** Work on another program only. */
  lemma OtherKept(s: State, t: State, w: WorkerId, d: Name, n: Name)
    requires OnlyMoved(s, t, w) && t.status == s.status[d := Healthy] && d in s.status && d != n
    requires w in s.workers ==> s.workers[w].name != n
    ensures Kept(s, t, n)
  {
  }

  lemma ReachFurther(progs: Configs, res: Resolution, u: State, t: State)
    requires Reachable(progs, res, u) && Leads(progs, res, u, t)
    ensures Reachable(progs, res, t)
  {
    hide Next, Calm, Init;
    var b :| Behaviour(progs, res, b) && b[|b|-1] == u;
    var c :| Path(progs, res, c) && c != [] && c[0] == u && c[|c|-1] == t;
    var d := b + c[1..];
    forall i, j | 0 <= i && i + 1 == j < |d| ensures Next(progs, res, d[i], d[j]) {
      if j >= |b| {
        assert d[i] == c[i - |b| + 1] && d[j] == c[j - |b| + 1];
        CalmIsNext(progs, res, c[i - |b| + 1], c[j - |b| + 1]);
      } else {
        assert d[i] == b[i] && d[j] == b[j];
      }
    }
    assert Behaviour(progs, res, d) && d[|d|-1] == t;
  }

  lemma RecordNow(progs: Configs, res: Resolution, o: State, s: State, w: WorkerId, n: Name) returns (t: State)
    requires Leads(progs, res, o, s) && n in progs && n in s.status && Standing(s, w, n, Recording, s.status)
    ensures Leads(progs, res, o, t) && Standing(t, w, n, Settling, s.status[n := ProgState.Running])
    ensures OnlyMoved(s, t, w) && t.history == s.history
  {
    hide Leads;
    t := Take(progs, res, o, s, Record(w));
  }

  lemma PassCheck(progs: Configs, res: Resolution, o: State, s: State, d: Name, n: Name) returns (t: State)
    requires Leads(progs, res, o, s) && d in progs && d in s.status && progs[d].healthCheck != "" && d != n
    requires LaunchedIn(s.history, d)
    ensures Leads(progs, res, o, t) && Kept(s, t, n) && d in t.status && t.status[d] == Healthy
  {
    hide Leads, LaunchedIn;
    t := Take(progs, res, o, s, HealthPassed(d));
  }

  /** A program marked as starting can be brought up through the worker that backs the mark. */
  lemma FinishStarting(progs: Configs, res: Resolution, o: State, s: State, d: Name, n: Name) returns (t: State)
    requires Leads(progs, res, o, s) && d in progs && s.status.Keys == progs.Keys && d != n && Launches(s, d)
    requires LaunchedIn(s.history, d) && d !in progs[d].dependsOn
    requires forall x | x in progs[d].dependsOn :: x in s.status && s.status[x] == Healthy
    ensures Leads(progs, res, o, t) && Kept(s, t, n) && t.status[d] == Healthy
  {
    var w :| w in s.workers && s.workers[w].name == d
      && (s.workers[w].pc.Launching? || s.workers[w].pc.Recording? || s.workers[w].pc.Failing?);
    hide Leads, LaunchedIn, Launches, EndsInLaunch, Enabled, Apply;
    if s.workers[w].pc.Failing? {
      var v := FailureReported(progs, res, o, s, w, d);
      var k := FreshCommand(v.workers.Keys);
      t := LaunchOne(progs, res, o, v, d, k);
    } else {
      var v: State;
      if s.workers[w].pc.Launching? {
        v := LaunchNow(progs, res, o, s, w, d);
      } else {
        v := RecordNow(progs, res, o, s, w, d);
      }
      LaunchedStays(s.history, v.history, d);
      t := BecomeHealthy(progs, res, o, v, w, d);
      OtherKept(s, t, w, d, n);
    }
  }

  lemma FinishRunning(progs: Configs, res: Resolution, o: State, s: State, d: Name, n: Name) returns (t: State)
    requires Leads(progs, res, o, s) && d in progs && s.status.Keys == progs.Keys && d != n && Settles(s, d)
    requires LaunchedIn(s.history, d)
    ensures Leads(progs, res, o, t) && Kept(s, t, n) && t.status[d] == Healthy
  {
    var w :| w in s.workers && s.workers[w].name == d && s.workers[w].pc.Settling?;
    hide Leads, LaunchedIn, Settles, Enabled, Apply;
    t := BecomeHealthy(progs, res, o, s, w, d);
    OtherKept(s, t, w, d, n);
  }

  lemma StartAnew(progs: Configs, res: Resolution, o: State, s: State, d: Name, n: Name) returns (t: State)
    requires Leads(progs, res, o, s) && d in progs && s.status.Keys == progs.Keys && d != n
    requires !SkipsStart(s.status[d]) && d !in progs[d].dependsOn
    requires forall x | x in progs[d].dependsOn :: x in s.status && s.status[x] == Healthy
    ensures Leads(progs, res, o, t) && Kept(s, t, n) && t.status[d] == Healthy
  {
    hide Leads, LaunchedIn, Enabled, Apply, EndsInLaunch;
    var k := FreshCommand(s.workers.Keys);
    t := LaunchOne(progs, res, o, s, d, k);
    OtherKept(s, t, Command(k), d, n);
  }

  /** No launch of `n` is among the first `p` events. */
  ghost predicate NotYet(h: seq<Event>, p: nat, n: Name) {
    forall q | 0 <= q < p && q < |h| && h[q].Launched? :: h[q].name != n
  }

  lemma AboutLaunched(progs: Configs, res: Resolution, o: State, s: State, d: Name)
    requires Reachable(progs, res, o) && Leads(progs, res, o, s) && LaunchedIn(s.history, d)
    ensures d in progs && progs[d].enabled && s.status.Keys == progs.Keys && d !in progs[d].dependsOn
    ensures Backed(progs, s, d)
  {
    hide Leads, Backed;
    ReachFurther(progs, res, o, s);
    ReachableInv(progs, res, s);
    ReachableBacked(progs, res, s, d);
    DependenciesLaunched(progs, res, s, d);
    var w :| Launched(w, d) in s.history;
    var k: nat :| k < |s.history| && s.history[k] == Launched(w, d);
    LaunchAfterDependencies(progs, res, s, k);
  }

  /** A program launched before `n` ever was can be brought up again, and with it everything it depends on, without
      touching `n`. */
  lemma {:induction false} Revive(progs: Configs, res: Resolution, o: State, s: State, d: Name, p: nat, n: Name)
    returns (t: State)
    requires Reachable(progs, res, o) && Leads(progs, res, o, s)
    requires p < |s.history| && s.history[p].Launched? && s.history[p].name == d && NotYet(s.history, p + 1, n)
    ensures Leads(progs, res, o, t) && Kept(s, t, n) && d in t.status && t.status[d] == Healthy
    decreases p, 1, 0
  {
    hide Reachable, Leads, Enabled, Apply, Kept, Backed, LaunchedIn, ObservedBefore, NotYet;
    PositionIsIn(s.history, p);
    AboutLaunched(progs, res, o, s, d);
    PositionNot(s.history, p, n);
    if progs[d].healthCheck != "" {
      t := PassCheck(progs, res, o, s, d, n);
    } else {
      DependenciesBefore(progs, res, o, s, p);
      Earlier(s.history, p, n);
      var r := ReviveAll(progs, res, o, s, progs[d].dependsOn, p, n);
      StillLaunched(s, r, d, n);
      AboutLaunched(progs, res, o, r, d);
      t := ReviveNow(progs, res, o, r, d, n);
      KeptTransitive(s, r, t, n);
    }
  }

  lemma PositionIsIn(h: seq<Event>, p: nat)
    requires p < |h| && h[p].Launched?
    ensures LaunchedIn(h, h[p].name)
  {
    assert Launched(h[p].w, h[p].name) in h;
  }

  lemma PositionNot(h: seq<Event>, p: nat, n: Name)
    requires p < |h| && h[p].Launched? && NotYet(h, p + 1, n)
    ensures h[p].name != n
  {
  }

  lemma Earlier(h: seq<Event>, p: nat, n: Name)
    requires NotYet(h, p + 1, n)
    ensures NotYet(h, p, n)
  {
  }

  lemma StillLaunched(s: State, t: State, d: Name, n: Name)
    requires LaunchedIn(s.history, d) && Kept(s, t, n)
    ensures LaunchedIn(t.history, d)
  {
    LaunchedStays(s.history, t.history, d);
  }

  lemma DependenciesBefore(progs: Configs, res: Resolution, o: State, s: State, p: nat)
    requires Reachable(progs, res, o) && Leads(progs, res, o, s) && p < |s.history| && s.history[p].Launched?
    ensures s.history[p].name in progs
    ensures forall x | x in progs[s.history[p].name].dependsOn :: LaunchedBefore(s.history, p, x)
  {
    hide Reachable, Leads;
    ReachFurther(progs, res, o, s);
    LaunchAfterDependencies(progs, res, s, p);
    forall x | x in progs[s.history[p].name].dependsOn ensures LaunchedBefore(s.history, p, x) {
      var l := ObservedWasLaunched(s.history, p, s.history[p].w, x);
    }
  }

  lemma ReviveNow(progs: Configs, res: Resolution, o: State, s: State, d: Name, n: Name) returns (t: State)
    requires Leads(progs, res, o, s) && d in progs && progs[d].enabled && progs[d].healthCheck == "" && d != n
    requires s.status.Keys == progs.Keys && Backed(progs, s, d) && LaunchedIn(s.history, d) && d !in progs[d].dependsOn
    requires forall x | x in progs[d].dependsOn :: x in s.status && s.status[x] == Healthy
    ensures Leads(progs, res, o, t) && Kept(s, t, n) && d in t.status && t.status[d] == Healthy
  {
    hide Leads, LaunchedIn, Launches, Settles;
    if s.status[d] == Healthy {
      t := s;
    } else if s.status[d] == Running {
      t := FinishRunning(progs, res, o, s, d, n);
    } else if s.status[d] == ProgState.Starting {
      t := FinishStarting(progs, res, o, s, d, n);
    } else {
      t := StartAnew(progs, res, o, s, d, n);
    }
  }

  lemma {:induction false} ReviveAll(progs: Configs, res: Resolution, o: State, s: State, deps: seq<Name>, p: nat,
                                     n: Name)
    returns (t: State)
    requires Reachable(progs, res, o) && Leads(progs, res, o, s) && NotYet(s.history, p, n)
    requires forall x | x in deps :: LaunchedBefore(s.history, p, x)
    ensures Leads(progs, res, o, t) && Kept(s, t, n) && forall x | x in deps :: x in t.status && t.status[x] == Healthy
    decreases p, 0, |deps|
  {
    hide Reachable, Leads, Enabled, Apply, Backed;
    t := s;
    if deps != [] {
      var b, x := deps[..|deps|-1], deps[|deps|-1];
      assert deps == b + [x];
      var r := ReviveAll(progs, res, o, s, b, p, n);
      assert LaunchedBefore(s.history, p, x);
      var l: nat :| l < p && l < |s.history| && s.history[l].Launched? && s.history[l].name == x;
      assert r.history[l] == s.history[l] && NotYet(r.history, l + 1, n) by {
        assert forall q | 0 <= q <= l :: r.history[q] == s.history[q];
      }
      t := Revive(progs, res, o, r, x, l, n);
      KeptTransitive(s, r, t, n);
    }
  }

  /** Where it is worth waiting, delaying or launching, all dependencies being healthy, the launch can follow. */
  lemma PendingLaunches(progs: Configs, res: Resolution, o: State, s: State, n: Name, w: WorkerId) returns (t: State)
    requires Leads(progs, res, o, s) && n in progs && n in s.status && w in s.workers && s.workers[w].name == n
    requires forall d | d in progs[n].dependsOn :: d in s.status && s.status[d] == Healthy
    requires s.workers[w].pc.WaitingFor? ==> s.workers[w].pc.dep <= |progs[n].dependsOn|
    requires s.workers[w].pc.Delaying? || s.workers[w].pc.Launching? || s.workers[w].pc.WaitingFor?
    ensures Leads(progs, res, o, t) && EndsInLaunch(s, t, w, n)
  {
    hide Leads, LaunchedIn, Enabled, Apply;
    var pc, r := s.workers[w].pc, s;
    if pc.WaitingFor? {
      r := ObserveAll(progs, res, o, s, w, n, pc.dep);
      r := Delay(progs, res, o, r, w, n);
    } else if pc.Delaying? {
      r := DelayEnds(progs, res, o, s, w, n);
    }
    t := LaunchNow(progs, res, o, r, w, n);
  }

  lemma DelayEnds(progs: Configs, res: Resolution, o: State, s: State, w: WorkerId, n: Name) returns (t: State)
    requires Leads(progs, res, o, s) && n in progs && n in s.status && Standing(s, w, n, Delaying, s.status)
    ensures Leads(progs, res, o, t) && Standing(t, w, n, Launching, s.status[n := ProgState.Starting])
    ensures t.history == s.history
  {
    hide Leads;
    t := Take(progs, res, o, s, DelayOver(w));
  }

  lemma FailureReported(progs: Configs, res: Resolution, o: State, s: State, w: WorkerId, n: Name) returns (t: State)
    requires Leads(progs, res, o, s) && n in progs && n in s.status && Standing(s, w, n, Failing, s.status)
    ensures Leads(progs, res, o, t) && t.status == s.status[n := ProgState.Failed]
    ensures t.history == s.history && t.workers == s.workers[w := Worker(n, Returned(false))]
  {
    hide Leads;
    t := Take(progs, res, o, s, Fail(w));
  }

  /** An attempt about to report failure clears the mark, and a later start command launches. */
  lemma FailingLaunches(progs: Configs, res: Resolution, o: State, s: State, n: Name, w: WorkerId, k: nat)
    returns (t: State)
    requires Leads(progs, res, o, s) && n in progs && s.status.Keys == progs.Keys && n !in progs[n].dependsOn
    requires Standing(s, w, n, Failing, s.status) && Command(k) !in s.workers
    requires forall d | d in progs[n].dependsOn :: d in s.status && s.status[d] == Healthy
    ensures Leads(progs, res, o, t) && EndsInLaunch(s, t, Command(k), n)
  {
    hide Leads, LaunchedIn;
    var v := FailureReported(progs, res, o, s, w, n);
    t := LaunchOne(progs, res, o, v, n, k);
  }

  lemma WaitGivenUp(progs: Configs, res: Resolution, o: State, s: State, w: WorkerId, n: Name) returns (t: State)
    requires Leads(progs, res, o, s) && n in progs && progs[n].dependsOn != [] && progs[n].dependsOn[0] in s.status
    requires Standing(s, w, n, WaitingFor(0), s.status)
    ensures Leads(progs, res, o, t) && Standing(t, w, n, Failing, s.status) && OnlyMoved(s, t, w)
  {
    hide Leads;
    t := Take(progs, res, o, s, GiveUp(w));
  }

  /** A stale attempt can undo the mark: having given up waiting, it writes the failed state over a healthy program,
      and a start command issued only then launches the program again. */
  lemma StaleFailureLaunchesAgain(progs: Configs, res: Resolution, s: State, n: Name, j: nat, k: nat, l: nat)
    returns (u: State, t: State)
    requires Leads(progs, res, Init(progs), s) && j != k && k != l && j != l
    requires Command(j) !in s.workers && Command(k) !in s.workers && Command(l) !in s.workers
    requires forall w | w in s.workers :: s.workers[w].name != n
    requires n in progs && s.status.Keys == progs.Keys && !SkipsStart(s.status[n])
    requires n !in progs[n].dependsOn && progs[n].dependsOn != []
    requires forall d | d in progs[n].dependsOn :: d in s.status && s.status[d] == Healthy
    ensures Leads(progs, res, Init(progs), u) && n in u.status && u.status[n] == Healthy && Command(l) !in u.workers
    ensures forall w | w in u.workers && u.workers[w].name == n :: u.workers[w].pc.Returned? || u.workers[w].pc.Failing?
    ensures Leads(progs, res, u, t) && EndsInLaunch(u, t, Command(l), n)
  {
    hide Leads, LaunchedIn, EndsInLaunch, Enabled, Apply;
    var o := Init(progs);
    var a := BeginOne(progs, res, o, s, n, j);
    var b := BeginOne(progs, res, o, a, n, k);
    var c := WaitGivenUp(progs, res, o, b, Command(k), n);
    u := FinishOne(progs, res, o, c, n, j);
    Stay(progs, res, u);
    t := FailingLaunches(progs, res, u, u, n, Command(k), l);
  }

  /** Every unsettled attempt of a program that was launched before can end in a further launch of it. */
  lemma CanLaunchAgain(progs: Configs, res: Resolution, u: State, n: Name, w: WorkerId) returns (t: State)
    requires Reachable(progs, res, u) && LaunchedIn(u.history, n)
    requires w in u.workers && u.workers[w].name == n && Unsettled(u.workers[w].pc)
    ensures Leads(progs, res, u, t) && LaunchesBetween(u.history, t.history, n)
  {
    hide Leads, LaunchedIn, Reachable, EndsInLaunch, ObservedUpTo, HistoryInv, NotYet, LaunchesBetween;
    Stay(progs, res, u);
    AboutLaunched(progs, res, u, u, n);
    ReachableInv(progs, res, u);
    assert WorkerInv(progs, u.history, w, u.workers[w]);
    var f := FirstLaunch(u.history, n);
    DependenciesBefore(progs, res, u, u, f);
    var s := ReviveAll(progs, res, u, u, progs[n].dependsOn, f, n);
    if u.workers[w].pc.Failing? {
      var k := FreshCommand(s.workers.Keys);
      t := FailingLaunches(progs, res, u, s, n, w, k);
      EndSame(u, s, t, Command(k), n);
    } else {
      t := PendingLaunches(progs, res, u, s, n, w);
      EndSame(u, s, t, w, n);
    }
  }

  lemma {:induction false} FirstLaunch(h: seq<Event>, n: Name) returns (f: nat)
    requires LaunchedIn(h, n)
    ensures f < |h| && h[f].Launched? && h[f].name == n && NotYet(h, f, n)
    decreases |h|
  {
    var w :| Launched(w, n) in h;
    f :| f < |h| && h[f] == Launched(w, n);
    if !NotYet(h, f, n) {
      var q :| 0 <= q < f && h[q].Launched? && h[q].name == n;
      assert Launched(h[q].w, n) in h[..f];
      f := FirstLaunch(h[..f], n);
    }
  }

  lemma EndSame(u: State, s: State, t: State, w: WorkerId, n: Name)
    requires u.history <= s.history && EndsInLaunch(s, t, w, n)
    ensures LaunchesBetween(u.history, t.history, n)
  {
    assert t.history[|t.history|-1].Launched?;
  }

  lemma {:induction false} FreshCommand(ws: set<WorkerId>) returns (k: nat)
    ensures forall j: nat | j >= k :: Command(j) !in ws
    decreases |ws|
  {
    k := 0;
    if ws != {} {
      var w :| w in ws;
      k := FreshCommand(ws - {w});
      if w.Command? && w.k >= k {
        k := w.k + 1;
      }
    }
  }

  /** When "already-running programs are skipped" holds: a program marked running or healthy is launched no more,
      until it
      exits, fails its health check or is stopped, exactly when no attempt to start it is still waiting, delaying,
      launching or about to report failure. */
  lemma NoRelaunchIff(progs: Configs, res: Resolution, u: State, n: Name)
    requires Reachable(progs, res, u) && MarkedUp(u, n)
    ensures (forall c: seq<State> | Continues(progs, res, n, u, c) ::
              !LaunchesBetween(u.history, c[|c|-1].history, n)) <==> !Attempted(u, n)
  {
    hide Reachable, Spares, LaunchesBetween;
    if Attempted(u, n) {
      var w :| w in u.workers && u.workers[w].name == n && Unsettled(u.workers[w].pc);
      ReachableInv(progs, res, u);
      var t := CanLaunchAgain(progs, res, u, n, w);
      var c := LeadsContinues(progs, res, n, u, t);
    } else {
      forall c: seq<State> | Continues(progs, res, n, u, c) ensures !LaunchesBetween(u.history, c[|c|-1].history, n) {
        SettledStays(progs, res, n, u, c, |c| - 1);
      }
    }
  }
}

/** What can still happen to an attempt: which states it shows on its way, when it can fail, and what a dependency it
    has seen healthy can turn into before its launch. */
module LaunchOutcomes {
  import opened NameOrder
  import opened Layering
  import opened Programs
  import opened Launcher
  import opened LaunchSafety
  import opened LaunchMeaning
  import G = GroupRun

  // ---- continuations ----

  ghost predicate Linked(progs: Configs, res: Resolution, c: seq<State>) {
    c != [] && forall i, j | 0 <= i && i + 1 == j < |c| :: Next(progs, res, c[i], c[j])
  }

  /** Some steps lead from `s` to `t`. */
  ghost predicate Follows(progs: Configs, res: Resolution, s: State, t: State) {
    exists c: seq<State> :: c != [] && Linked(progs, res, c) && c[0] == s && c[|c|-1] == t
  }

  lemma Here(progs: Configs, res: Resolution, s: State)
    ensures Follows(progs, res, s, s)
  {
    assert Linked(progs, res, [s]) && [s][0] == s;
  }

  lemma OneMore(progs: Configs, res: Resolution, c: seq<State>, t: State)
    requires Linked(progs, res, c) && Next(progs, res, c[|c|-1], t)
    ensures Linked(progs, res, c + [t])
  {
    hide Next;
  }

  lemma Onward(progs: Configs, res: Resolution, o: State, s: State, step: Step) returns (t: State)
    requires Follows(progs, res, o, s) && Enabled(progs, res, s, step)
    ensures t == Apply(progs, res, s, step) && Follows(progs, res, o, t)
  {
    hide Enabled, Apply, Linked;
    t := Apply(progs, res, s, step);
    var c :| c != [] && Linked(progs, res, c) && c[0] == o && c[|c|-1] == s;
    assert Next(progs, res, s, t);
    OneMore(progs, res, c, t);
    assert (c + [t])[0] == o;
  }

  lemma ReachedLater(progs: Configs, res: Resolution, o: State, c: seq<State>, i: nat)
    requires Reachable(progs, res, o) && Linked(progs, res, c) && c[0] == o && i < |c|
    ensures Reachable(progs, res, c[i])
  {
    hide Next, Init;
    var b :| Behaviour(progs, res, b) && b[|b|-1] == o;
    var d := b + c[1..i+1];
    assert forall k | |b| - 1 <= k < |d| :: d[k] == c[k - |b| + 1];
    forall k, j | 0 <= k && k + 1 == j < |d| ensures Next(progs, res, d[k], d[j]) {
      if j >= |b| {
        assert d[k] == c[k - |b| + 1] && d[j] == c[j - |b| + 1];
      } else {
        assert d[k] == b[k] && d[j] == b[j];
      }
    }
    assert Behaviour(progs, res, d) && d[|d|-1] == c[i];
  }

  // ---- the states an attempt shows ----

  /** Every place an attempt comes to has its own effect on the state of its program, and on no other. */
  lemma StateOnTheWay(progs: Configs, res: Resolution, s: State, step: Step, w: WorkerId)
    requires Enabled(progs, res, s, step) && OfWorker(step) && step.w == w && w in s.workers
    requires w in Apply(progs, res, s, step).workers && !Apply(progs, res, s, step).workers[w].pc.Returned?
    ensures var t := Apply(progs, res, s, step); var n := s.workers[w].name;
            match t.workers[w].pc
            case WaitingFor(_) => t.status == if s.workers[w].pc.Entering? then s.status[n := WaitingDeps] else s.status
            case Delaying => t.status == s.status[n := WaitingDelay]
            case Launching => t.status == s.status[n := ProgState.Starting]
            case Settling => t.status == s.status[n := ProgState.Running]
            case _ => t.status == s.status
  {
    hide LaunchedIn, Return;
  }

  /** At its end it marks a failure it had met, or a success that no health check has to confirm. */
  lemma StateAtTheEnd(progs: Configs, res: Resolution, s: State, step: Step, w: WorkerId)
    requires Enabled(progs, res, s, step) && OfWorker(step) && step.w == w && w in s.workers
    requires w in Apply(progs, res, s, step).workers && Apply(progs, res, s, step).workers[w].pc.Returned?
    ensures var t := Apply(progs, res, s, step); var n := s.workers[w].name;
            t.status ==
              if s.workers[w].pc.Failing? then s.status[n := ProgState.Failed]
              else if s.workers[w].pc.Settling? && n in progs && progs[n].healthCheck == "" then s.status[n := Healthy]
              else s.status
  {
    hide LaunchedIn, Return;
  }

  /** A dependency that does not exist ends the attempt there and then, without marking anything. */
  lemma MissingDependencyReturns(progs: Configs, res: Resolution, s: State, step: Step, w: WorkerId)
    requires Inv(progs, s) && Enabled(progs, res, s, step) && OfWorker(step) && step.w == w && w in s.workers
    requires var pc, n := s.workers[w].pc, s.workers[w].name;
             pc.WaitingFor? && n in progs && pc.dep < |progs[n].dependsOn| && progs[n].dependsOn[pc.dep] !in progs
    ensures var t := Apply(progs, res, s, step);
            w in t.workers && t.workers[w].pc == Returned(false) && t.status == s.status && t.history == s.history
  {
    hide LaunchedIn;
  }

  /** A cancelled delay leaves the program marked as delayed. */
  lemma DelayCanBeCancelled(progs: Configs, res: Resolution, s: State, w: WorkerId) returns (t: State)
    requires Reachable(progs, res, s) && w in s.workers && s.workers[w].pc.Delaying?
    ensures Next(progs, res, s, t) && w in t.workers && t.workers[w].pc == Returned(false) && t.status == s.status
  {
    ReachableInv(progs, res, s);
    assert WorkerInv(progs, s.history, w, s.workers[w]);
    t := Apply(progs, res, s, DelayCancelled(w));
  }

  /** So does a phase at any barrier with a group behind it. */
  lemma PhaseCanBeCancelled(progs: Configs, res: Resolution, s: State, run: nat) returns (t: State)
    requires run in s.runs && s.runs[run].status == G.Ready && s.runs[run].cursor < |s.runs[run].groups|
    ensures Next(progs, res, s, t) && run in t.runs && t.runs[run].status == G.Cancelled && t.workers == s.workers
  {
    assert Enabled(progs, res, s, RunStep(run, G.Cancel));
    t := Apply(progs, res, s, RunStep(run, G.Cancel));
  }

  // ---- exits ----

  /** Only programs that were launched are marked as done, or as having failed their health check. */
  ghost predicate ExitsBacked(progs: Configs, s: State) {
    forall n | n in s.status && (s.status[n] == Done || s.status[n] == HealthFailed) :: LaunchedIn(s.history, n)
  }

  lemma ExitsBackedStep(progs: Configs, res: Resolution, s: State, step: Step)
    requires ExitsBacked(progs, s) && Enabled(progs, res, s, step)
    ensures ExitsBacked(progs, Apply(progs, res, s, step))
  {
    hide LaunchedIn, PhaseGroups;
    HistoryStep(progs, res, s, step);
    var t := Apply(progs, res, s, step);
    forall n | LaunchedIn(s.history, n) ensures LaunchedIn(t.history, n) {
      StillLaunched(s.history, t.history, n);
    }
  }

  lemma StillLaunched(h: seq<Event>, g: seq<Event>, n: Name)
    requires h <= g && LaunchedIn(h, n)
    ensures LaunchedIn(g, n)
  {
  }

  lemma {:induction false} ExitsBackedBehaviour(progs: Configs, res: Resolution, b: seq<State>, i: nat)
    requires Behaviour(progs, res, b) && i < |b|
    ensures ExitsBacked(progs, b[i])
  {
    hide Enabled, Apply;
    if i > 0 {
      hide ExitsBacked;
      ExitsBackedBehaviour(progs, res, b, i - 1);
      assert Next(progs, res, b[i-1], b[i]);
      var step :| Enabled(progs, res, b[i-1], step) && b[i] == Apply(progs, res, b[i-1], step);
      ExitsBackedStep(progs, res, b[i-1], step);
    }
  }

  lemma ExitsAreOfLaunched(progs: Configs, res: Resolution, s: State, n: Name)
    requires Reachable(progs, res, s) && n in s.status && (s.status[n] == Done || s.status[n] == HealthFailed)
    ensures LaunchedIn(s.history, n)
  {
    hide LaunchedIn;
    var b :| Behaviour(progs, res, b) && b[|b|-1] == s;
    ExitsBackedBehaviour(progs, res, b, |b| - 1);
  }

  /** "All dependencies healthy" holds of the moments they were polled and not of the launch: whatever attempt is about
      to launch, any one of its dependencies can exit, fail its check or be stopped first, and the launch still
      happens. */
  lemma DependencyCanBeLost(progs: Configs, res: Resolution, s: State, w: WorkerId, d: Name, to: ProgState)
    returns (t: State, u: State)
    requires Reachable(progs, res, s) && w in s.workers && s.workers[w].pc.Launching?
    requires DependsOn(progs, s.workers[w].name, d) && to in {Stopped, Done, ProgState.Failed, HealthFailed}
    ensures Next(progs, res, s, t) && d in t.status && t.status[d] == to
    ensures Next(progs, res, t, u) && u.status == t.status && u.history == t.history + [Launched(w, s.workers[w].name)]
  {
    ReachableInv(progs, res, s);
    SeenIsLaunched(progs, s, w, d);
    t := Apply(progs, res, s, Changed(d, to));
    u := Apply(progs, res, t, Exec(w, true));
  }

  lemma SeenIsLaunched(progs: Configs, s: State, w: WorkerId, d: Name)
    requires Inv(progs, s) && w in s.workers && s.workers[w].pc.Launching? && DependsOn(progs, s.workers[w].name, d)
    ensures s.workers[w].name in progs && s.status.Keys == progs.Keys
    ensures LaunchedIn(s.history, d) && d in progs && progs[d].enabled
  {
    assert WorkerInv(progs, s.history, w, s.workers[w]);
    var deps := progs[s.workers[w].name].dependsOn;
    var i: nat :| i < |deps| && deps[i] == d;
    assert Observed(w, deps[i]) in s.history;
    var k: nat :| k < |s.history| && s.history[k] == Observed(w, d);
    assert Explains(progs, s.history[..k], s.history[k]);
    var v :| Launched(v, d) in s.history[..k];
    assert Launched(v, d) in s.history;
    var l: nat :| l < |s.history| && s.history[l] == Launched(v, d);
    assert Explains(progs, s.history[..l], s.history[l]);
  }

  // ---- failing ----

  ghost predicate CanFail(progs: Configs, res: Resolution, s: State, w: WorkerId) {
    exists t :: Follows(progs, res, s, t) && w in t.workers && t.workers[w].pc == Returned(false)
  }

  /** The attempt has launched its program, or has nothing to do for a disabled one. */
  predicate Safe(progs: Configs, s: State, w: WorkerId) {
    && w in s.workers
    && var n, pc := s.workers[w].name, s.workers[w].pc;
    || pc.Recording? || pc.Settling? || pc == Returned(true)
    || (pc.Entering? && n in progs && !progs[n].enabled)
  }

  lemma SafeStep(progs: Configs, res: Resolution, s: State, step: Step, w: WorkerId)
    requires Inv(progs, s) && Safe(progs, s, w) && Enabled(progs, res, s, step)
    ensures Safe(progs, Apply(progs, res, s, step), w)
  {
    hide LaunchedIn, HistoryInv;
    if OfWorker(step) && step.w == w {
      OwnSafe(progs, res, s, step, w);
    } else {
      OthersStand(progs, res, s, step, w);
    }
  }

  lemma OwnSafe(progs: Configs, res: Resolution, s: State, step: Step, w: WorkerId)
    requires Inv(progs, s) && Safe(progs, s, w) && Enabled(progs, res, s, step) && OfWorker(step) && step.w == w
    ensures Safe(progs, Apply(progs, res, s, step), w)
  {
    hide LaunchedIn, HistoryInv;
  }

  lemma {:induction false} SafePath(progs: Configs, res: Resolution, c: seq<State>, w: WorkerId, i: nat)
    requires Linked(progs, res, c) && Reachable(progs, res, c[0]) && Safe(progs, c[0], w) && i < |c|
    ensures Safe(progs, c[i], w)
  {
    hide Enabled, Apply, Safe, Reachable;
    if i > 0 {
      SafePath(progs, res, c, w, i - 1);
      ReachedLater(progs, res, c[0], c, i - 1);
      ReachableInv(progs, res, c[i-1]);
      assert Next(progs, res, c[i-1], c[i]);
      var step :| Enabled(progs, res, c[i-1], step) && c[i] == Apply(progs, res, c[i-1], step);
      SafeStep(progs, res, c[i-1], step, w);
    }
  }

  /** Worker `w` of the known program `n` is at `pc`. */
  ghost predicate Reaches(progs: Configs, res: Resolution, o: State, s: State, w: WorkerId, n: Name, pc: Pc) {
    && Follows(progs, res, o, s) && w in s.workers && s.workers[w] == Worker(n, pc)
    && n in progs && s.status.Keys == progs.Keys
  }

  lemma FailsFrom(progs: Configs, res: Resolution, o: State, s: State, w: WorkerId, n: Name)
    requires Reaches(progs, res, o, s, w, n, Failing)
    ensures CanFail(progs, res, o, w)
  {
    hide Follows;
    var t := Onward(progs, res, o, s, Fail(w));
  }

  lemma LaunchFails(progs: Configs, res: Resolution, o: State, s: State, w: WorkerId, n: Name)
    requires Reaches(progs, res, o, s, w, n, Launching)
    ensures CanFail(progs, res, o, w)
  {
    hide Follows;
    var t := Onward(progs, res, o, s, Exec(w, false));
    FailsFrom(progs, res, o, t, w, n);
  }

  lemma DelayFails(progs: Configs, res: Resolution, o: State, s: State, w: WorkerId, n: Name)
    requires Reaches(progs, res, o, s, w, n, Delaying)
    ensures CanFail(progs, res, o, w)
  {
    hide Follows;
    var t := Onward(progs, res, o, s, DelayCancelled(w));
  }

  lemma GivesUp(progs: Configs, res: Resolution, o: State, s: State, w: WorkerId, n: Name, k: nat)
    requires Reaches(progs, res, o, s, w, n, WaitingFor(k)) && k < |progs[n].dependsOn|
    ensures CanFail(progs, res, o, w)
  {
    hide Follows;
    var t := Onward(progs, res, o, s, GiveUp(w));
    if t.workers[w].pc.Failing? {
      FailsFrom(progs, res, o, t, w, n);
    }
  }

  lemma WaitOverFails(progs: Configs, res: Resolution, o: State, s: State, w: WorkerId, n: Name)
    requires n in progs && Reaches(progs, res, o, s, w, n, WaitingFor(|progs[n].dependsOn|))
    ensures CanFail(progs, res, o, w)
  {
    hide Follows, CanFail;
    var t := Onward(progs, res, o, s, DepsDone(w));
    if t.workers[w].pc.Delaying? {
      DelayFails(progs, res, o, t, w, n);
    } else {
      LaunchFails(progs, res, o, t, w, n);
    }
  }

  lemma WaitFails(progs: Configs, res: Resolution, o: State, s: State, w: WorkerId, n: Name, k: nat)
    requires Reaches(progs, res, o, s, w, n, WaitingFor(k)) && k <= |progs[n].dependsOn|
    ensures CanFail(progs, res, o, w)
  {
    hide Follows, CanFail;
    if k < |progs[n].dependsOn| {
      GivesUp(progs, res, o, s, w, n, k);
    } else {
      WaitOverFails(progs, res, o, s, w, n);
    }
  }

  lemma EntryWaits(progs: Configs, res: Resolution, o: State, s: State, w: WorkerId, n: Name)
    requires Reaches(progs, res, o, s, w, n, Entering) && !SkipsStart(s.status[n])
    ensures CanFail(progs, res, o, w)
  {
    hide Follows, CanFail;
    var t := Onward(progs, res, o, s, Enter(w));
    WaitFails(progs, res, o, t, w, n, 0);
  }

  lemma EntryFails(progs: Configs, res: Resolution, o: State, s: State, w: WorkerId, n: Name)
    requires Reaches(progs, res, o, s, w, n, Entering) && progs[n].enabled
    ensures CanFail(progs, res, o, w)
  {
    hide Follows, LaunchedIn, CanFail;
    var t := s;
    if SkipsStart(s.status[n]) {
      t := Onward(progs, res, o, s, Changed(n, Stopped));
    }
    EntryWaits(progs, res, o, t, w, n);
  }

  lemma UnknownFails(progs: Configs, res: Resolution, o: State, s: State, w: WorkerId)
    requires Follows(progs, res, o, s) && w in s.workers && s.workers[w].pc.Entering?
    requires s.workers[w].name !in s.status
    ensures CanFail(progs, res, o, w)
  {
    hide Follows;
    var t := Onward(progs, res, o, s, Enter(w));
  }

  /** An attempt can still return an error exactly as long as it has not launched its program, unless the program is
      known and disabled: nothing about the program or its dependencies makes success certain, and after the launch
      nothing makes the attempt fail. */
  lemma CanFailIff(progs: Configs, res: Resolution, s: State, w: WorkerId)
    requires Reachable(progs, res, s) && w in s.workers && !s.workers[w].pc.Returned?
    ensures CanFail(progs, res, s, w) <==>
              var n, pc := s.workers[w].name, s.workers[w].pc;
              !pc.Recording? && !pc.Settling? && (n !in progs || progs[n].enabled)
  {
    hide Follows, Reachable, LaunchedIn, HistoryInv, ObservedUpTo, CanFail;
    ReachableInv(progs, res, s);
    Here(progs, res, s);
    var n := s.workers[w].name;
    assert WorkerInv(progs, s.history, w, s.workers[w]);
    if Safe(progs, s, w) {
      NeverFails(progs, res, s, w);
    } else if n !in progs {
      UnknownFails(progs, res, s, s, w);
    } else {
      match s.workers[w].pc
      case Entering => EntryFails(progs, res, s, s, w, n);
      case WaitingFor(k) => WaitFails(progs, res, s, s, w, n, k);
      case Delaying => DelayFails(progs, res, s, s, w, n);
      case Launching => LaunchFails(progs, res, s, s, w, n);
      case Failing => FailsFrom(progs, res, s, s, w, n);
      case _ =>
    }
  }

  lemma NeverFails(progs: Configs, res: Resolution, s: State, w: WorkerId)
    requires Reachable(progs, res, s) && Safe(progs, s, w)
    ensures !CanFail(progs, res, s, w)
  {
    hide Reachable, Next;
    forall t | Follows(progs, res, s, t) && w in t.workers ensures t.workers[w].pc != Returned(false) {
      var c :| c != [] && Linked(progs, res, c) && c[0] == s && c[|c|-1] == t;
      SafePath(progs, res, c, w, |c| - 1);
    }
  }
}

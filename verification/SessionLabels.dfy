/** What the session WM manager reports: which state it shows where, and when it can still come to show a failure after
    a Stop. */
module SessionLabels {
  import opened SessionWM
  import opened SessionSafety

  predicate IsStop(step: Step) {
    step.StopCall? || step.StopQuick? || step.StopGone? || step.StopForced?
  }

  // ---- the state shown while nobody stops the manager ----

  predicate LastExited(log: seq<Event>) {
    log != [] && log[|log|-1].Exited?
  }

  /** The state that goes with a place of the supervision. */
  predicate Shows(s: Sys) {
    match s.f.state
    case Idle => s.chain.NotStarted? || s.chain == Marking(true)
    case Starting => s.chain.Execing? || s.chain.Recording? || s.chain.LaunchFailed?
    case Running =>
      || s.chain.Entering? || s.chain.Waiting? || s.chain.Reaping? || s.chain.Deciding? || s.chain.Backoff?
      || s.chain.Rechecking? || s.chain == Marking(false) || (s.chain.Ending? && LastExited(s.log))
    case Failed => s.chain.Over? || (s.chain == Ending(Failed) && !LastExited(s.log))
    case Stopped => s.chain.Over?
    case Stopping => false
  }

  lemma ShowsStep(policy: Policy, s: Sys, step: Step)
    requires Inv(policy, s) && Undisturbed(s) && Labelled(s) && Enabled(s, step)
    requires s.stops == map[] ==> Shows(s)
    ensures var t := Apply(s, step); t.stops == map[] ==> Shows(t)
  {
    hide Legal, Attempts;
    if IsStop(step) {
      assert step.k in Apply(s, step).stops;
    } else {
      assert Apply(s, step).stops == s.stops;
    }
  }

  lemma {:induction false} ShowsPath(policy: Policy, b: seq<Sys>, i: nat)
    requires Path(b) && b[0] == Init(policy) && i < |b|
    ensures b[i].stops == map[] ==> Shows(b[i])
  {
    hide Enabled, Apply, Inv, Undisturbed, Shows, Labelled;
    if i == 0 {
      ShowsInit(policy);
    } else {
      ShowsPath(policy, b, i - 1);
      PathInv(policy, b, i - 1);
      LabelledPath(policy, b, i - 1);
      assert Next(b[i-1], b[i]);
      var step :| Enabled(b[i-1], step) && b[i] == Apply(b[i-1], step);
      ShowsStep(policy, b[i-1], step);
    }
  }

  lemma ShowsInit(policy: Policy)
    ensures Shows(Init(policy))
  {
  }

  /** Without a Stop, each state is shown in its own places and nowhere else: starting from the moment a launch is
      under way until it is recorded or has failed, running from then on, through the backoff, until the monitor has
      decided that there is nothing more to do. */
  lemma StateShown(policy: Policy, s: Sys)
    requires Reachable(policy, s) && s.stops == map[]
    ensures s.f.state == Idle <==> s.chain.NotStarted? || s.chain == Marking(true)
    ensures s.f.state == Starting <==> s.chain.Execing? || s.chain.Recording? || s.chain.LaunchFailed?
    ensures s.f.state == Running <==>
              || s.chain.Entering? || s.chain.Waiting? || s.chain.Reaping? || s.chain.Deciding? || s.chain.Backoff?
              || s.chain.Rechecking? || s.chain == Marking(false) || (s.chain.Ending? && LastExited(s.log))
    ensures s.f.state != Stopping && (s.f.state == Stopped ==> s.chain.Over?)
  {
    var b :| Path(b) && b[0] == Init(policy) && b[|b|-1] == s;
    ShowsPath(policy, b, |b| - 1);
    LabelledPath(policy, b, |b| - 1);
  }

  // ---- exits and the backoff ----

  /** A clean exit is possible, and is followed by another launch exactly under the policy that always restarts. */
  lemma CleanExit(policy: Policy) returns (s: Sys)
    ensures Reachable(policy, s) && s.stops == map[] && s.chain == Deciding(false, policy, false)
    ensures CanAttempt(s) <==> policy == Always
  {
    var c := FirstExit(policy, false);
    s := c[|c|-1];
    RestartIff(policy, s);
  }

  lemma FirstLaunch(policy: Policy) returns (c: seq<Sys>)
    ensures Path(c) && c[0] == Init(policy)
    ensures var s := c[|c|-1];
            && s.chain == Waiting(1) && s.stops == map[] && s.live == {1} && s.launched == 1
            && s.f == Fields(Running, Some(1), 1, 0, false, policy)
  {
    hide Attempts;
    c := PathSnoc([Init(policy)], Start);
    c := PathSnoc(c, Mark);
    c := PathSnoc(c, Exec(true));
    c := PathSnoc(c, Record);
    c := PathSnoc(c, Enter);
  }

  /** The first launch succeeds and its process exits. */
  lemma FirstExit(policy: Policy, failed: bool) returns (c: seq<Sys>)
    ensures Path(c) && c[0] == Init(policy)
    ensures var s := c[|c|-1];
            && s.chain == Deciding(false, policy, failed) && s.stops == map[] && !s.f.stopping
            && s.live == {} && s.launched == 1 && s.f.state == Running && s.f.pgid == 0
  {
    hide Attempts, Init;
    c := FirstLaunch(policy);
    c := PathSnoc(c, Exit(1, failed));
    c := PathSnoc(c, WaitReturns);
    c := PathSnoc(c, DoReap);
  }

  lemma BackoffRelaunch(s: Sys)
    requires s.chain.Backoff? && !s.f.stopping
    ensures CanAttempt(s)
  {
    hide Attempts;
    var c := PathSnoc([s], Timer);
    c := PathSnoc(c, DoRecheck);
    c := PathSnoc(c, Mark);
    c := PathSnoc(c, Exec(false));
    AttemptsSnoc(s.log, Attempted(true, false));
  }

  /** The backoff can end either way: in another launch, or, when the context ends, in no further one. */
  lemma BackoffEndsEitherWay(policy: Policy, s: Sys) returns (c: seq<Sys>)
    requires Reachable(policy, s) && s.stops == map[] && s.chain.Backoff?
    ensures CanAttempt(s)
    ensures Path(c) && c[0] == s && c[|c|-1].chain.Over? && c[|c|-1].f.state == Stopped && c[|c|-1].log == s.log
  {
    hide Attempts, CanAttempt, Inv, Reachable;
    ReachableInv(policy, s);
    BackoffRelaunch(s);
    c := PathSnoc([s], ContextDone);
    c := PathSnoc(c, End);
  }

  // ---- after a Stop ----

  /** A Stop that has waited long enough returns while its process is still there, and forgets it. */
  lemma ForcedStopForgets(s: Sys, k: nat) returns (c: seq<Sys>)
    requires k in s.stops && s.stops[k].Killing? && s.stops[k].group in s.live && s.stops[k].group != 0
    ensures Path(c) && c[0] == s
    ensures var t := c[|c|-1];
            && k in t.stops && t.stops[k] == Done(s.stops[k].group, false) && t.live == s.live
            && t.f.cmd.None? && t.f.pgid == 0 && t.f.state == Stopped
  {
    c := PathSnoc([s], StopForced(k));
  }

  ghost predicate CanTurnFailed(s: Sys) {
    exists c: seq<Sys> :: Path(c) && c[0] == s && c[|c|-1].f.state == Failed
  }

  /** What still leads to a failed state once `stopping` is set. */
  predicate FailureAhead(c: Chain) {
    match c
    case Marking(_) => true
    case Execing(_) => true
    case LaunchFailed(_) => true
    case Ending(to) => to == Failed
    case Deciding(stopping, policy, failed) => !stopping && failed && policy == NoRestart
    case _ => false
  }

  lemma QuietStep(s: Sys, step: Step)
    requires Halting(s) && s.f.state != Failed && !FailureAhead(s.chain) && Enabled(s, step)
    ensures var t := Apply(s, step); Halting(t) && t.f.state != Failed && !FailureAhead(t.chain)
  {
  }

  lemma {:induction false} QuietPath(c: seq<Sys>, j: nat)
    requires Path(c) && Halting(c[0]) && c[0].f.state != Failed && !FailureAhead(c[0].chain) && j < |c|
    ensures Halting(c[j]) && c[j].f.state != Failed && !FailureAhead(c[j].chain)
  {
    if j > 0 {
      QuietPath(c, j - 1);
      assert Next(c[j-1], c[j]);
      var step :| Enabled(c[j-1], step) && c[j] == Apply(c[j-1], step);
      QuietStep(c[j-1], step);
    }
  }

  lemma FailurePath(s: Sys) returns (c: seq<Sys>)
    requires FailureAhead(s.chain)
    ensures Path(c) && c[0] == s && c[|c|-1].f.state == Failed
  {
    hide Attempts;
    c := [s];
    if s.chain.Marking? {
      c := PathSnoc(c, Mark);
    }
    if s.chain.Marking? || s.chain.Execing? {
      c := PathSnoc(c, Exec(false));
    }
    if s.chain.Deciding? {
      c := PathSnoc(c, Decide);
    }
    c := PathSnoc(c, if s.chain.Deciding? || s.chain.Ending? then End else GiveUp);
  }

  /** Once Stop has set `stopping`, the manager can still come to show a failure exactly when a launch was under way,
      or the exit of a process had been read before, as a failure the policy does not restart. A process that Stop
      itself ended is never shown as failed. */
  lemma TurnsFailedIff(s: Sys)
    requires Halting(s) && s.f.state != Failed
    ensures CanTurnFailed(s) <==> FailureAhead(s.chain)
  {
    if FailureAhead(s.chain) {
      var c := FailurePath(s);
    } else {
      forall c: seq<Sys> | Path(c) && c[0] == s ensures c[|c|-1].f.state != Failed {
        QuietPath(c, |c| - 1);
      }
    }
  }

  // ---- a failed launch is reported once, a failed relaunch twice ----

  ghost predicate OnlyRelaunchLingers(s: Sys) {
    && (s.chain.LaunchFailed? ==> Endswith(s.log, Attempted(!s.chain.first, false)))
    && (s.chain.Ending? && !LastExited(s.log) ==> Endswith(s.log, Attempted(true, false)))
  }

  lemma LingersStep(policy: Policy, s: Sys, step: Step)
    requires Inv(policy, s) && OnlyRelaunchLingers(s) && Enabled(s, step)
    ensures OnlyRelaunchLingers(Apply(s, step))
  {
    hide Legal, Attempts;
  }

  lemma {:induction false} LingersPath(policy: Policy, b: seq<Sys>, i: nat)
    requires Path(b) && b[0] == Init(policy) && i < |b|
    ensures OnlyRelaunchLingers(b[i])
  {
    hide Enabled, Apply, Inv, Undisturbed, Endswith;
    if i > 0 {
      LingersPath(policy, b, i - 1);
      PathInv(policy, b, i - 1);
      assert Next(b[i-1], b[i]);
      var step :| Enabled(b[i-1], step) && b[i] == Apply(b[i-1], step);
      LingersStep(policy, b[i-1], step);
    }
  }

  /** After a first launch that failed nothing is left to do; only after a relaunch that failed does the monitor still
      have a state to write. */
  lemma FirstFailureIsOver(policy: Policy, s: Sys)
    requires Reachable(policy, s) && s.chain.Ending? && !LastExited(s.log)
    ensures Endswith(s.log, Attempted(true, false))
  {
    var b :| Path(b) && b[0] == Init(policy) && b[|b|-1] == s;
    LingersPath(policy, b, |b| - 1);
  }

  /** So a Stop called after a failed relaunch can return, with the manager stopped, and the manager then turns to
      failed: under every policy that restarts there is such a run. */
  lemma LateFailure(policy: Policy, k: nat) returns (c: seq<Sys>, i: nat)
    requires policy != NoRestart
    ensures Path(c) && c[0] == Init(policy) && i < |c|
    ensures c[i].f.state == Stopped && c[i].stops == map[k := Done(0, true)]
    ensures var t := c[|c|-1]; t.stops == c[i].stops && t.chain.Over? && t.f.state == Failed
  {
    hide Attempts;
    c := FirstExit(policy, true);
    c := FailedRelaunch(policy, c);
    c := PathSnoc(c, StopCall(k));
    c := PathSnoc(c, StopQuick(k));
    i := |c| - 1;
    c := PathSnoc(c, End);
  }

  lemma FailedRelaunch(policy: Policy, b: seq<Sys>) returns (c: seq<Sys>)
    requires Path(b) && b[|b|-1].chain == Deciding(false, policy, true) && policy != NoRestart
    requires b[|b|-1].stops == map[] && !b[|b|-1].f.stopping
    ensures Path(c) && c[0] == b[0]
    ensures c[|c|-1].chain == Ending(Failed) && c[|c|-1].stops == map[] && c[|c|-1].f.state == Failed
  {
    hide Attempts;
    c := PathSnoc(b, Decide);
    c := PathSnoc(c, Timer);
    c := PathSnoc(c, DoRecheck);
    c := PathSnoc(c, Mark);
    c := PathSnoc(c, Exec(false));
    c := PathSnoc(c, GiveUp);
  }
}

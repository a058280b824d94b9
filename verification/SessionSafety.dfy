/** What holds in every run of the session WM supervisor. */
module SessionSafety {
  import opened SessionWM

  ghost predicate Next(s: Sys, t: Sys) {
    exists step :: Enabled(s, step) && t == Apply(s, step)
  }

  ghost predicate Path(c: seq<Sys>) {
    c != [] && forall i, j | 0 <= i && i + 1 == j < |c| :: Next(c[i], c[j])
  }

  ghost predicate Reachable(policy: Policy, s: Sys) {
    exists b :: Path(b) && b[0] == Init(policy) && b[|b|-1] == s
  }

  /** Facts about states before the first Stop. */
  ghost predicate Undisturbed(s: Sys) {
    s.stops == map[] ==>
      && !s.f.stopping
      && (s.chain.Entering? || s.chain.Waiting? ==> s.f.cmd.Some? && s.f.state == Running)
      && (s.chain.Over? || s.chain.Ending? ==> s.live == {})
  }

  lemma UndisturbedStep(policy: Policy, s: Sys, step: Step)
    requires Inv(policy, s) && Undisturbed(s) && Enabled(s, step)
    ensures Undisturbed(Apply(s, step))
  {
    var t := Apply(s, step);
    if step.StopCall? || step.StopQuick? || step.StopGone? || step.StopForced? {
      assert step.k in t.stops;
    } else {
      assert t.stops == s.stops;
    }
  }

  lemma {:induction false} PathInv(policy: Policy, b: seq<Sys>, i: nat)
    requires Path(b) && b[0] == Init(policy) && i < |b|
    ensures Inv(policy, b[i]) && Undisturbed(b[i])
  {
    if i == 0 {
      InitInv(policy);
    } else {
      PathInv(policy, b, i - 1);
      assert Next(b[i-1], b[i]);
      var step :| Enabled(b[i-1], step) && b[i] == Apply(b[i-1], step);
      StepInv(policy, b[i-1], step);
      UndisturbedStep(policy, b[i-1], step);
    }
  }

  lemma ReachableInv(policy: Policy, s: Sys)
    requires Reachable(policy, s)
    ensures Inv(policy, s) && Undisturbed(s)
  {
    var b :| Path(b) && b[0] == Init(policy) && b[|b|-1] == s;
    PathInv(policy, b, |b| - 1);
  }

  /** In every interleaving: at most one process is alive, launches and exits alternate with every relaunch
      allowed by the configured policy for the exit before it, and attempts equal one plus the restart count
      minus a relaunch counted but not yet attempted. */
  lemma Supervision(policy: Policy, s: Sys)
    requires Reachable(policy, s)
    ensures |s.live| <= 1 && s.live <= {s.launched}
    ensures Legal(policy, s.log)
    ensures !s.chain.NotStarted? ==> Attempts(s.log) == 1 + s.f.restartCount - Due(s.chain)
    ensures s.live != {} ==> s.chain.Recording? || s.chain.Entering? || s.chain == Waiting(s.launched) || s.chain.Over?
  {
    ReachableInv(policy, s);
  }

  /** Under on-failure a relaunch always follows a failing exit, and under disabled there is none. */
  lemma PolicyRespected(policy: Policy, s: Sys, k: nat)
    requires Reachable(policy, s) && k < |s.log| && s.log[k].Attempted? && s.log[k].relaunch
    ensures k > 0 && s.log[k-1].Exited? && policy != NoRestart
    ensures policy == OnFailure ==> s.log[k-1] == Exited(true)
  {
    ReachableInv(policy, s);
    assert ShouldRestart(policy, s.log[k-1].failed);
  }

  ghost predicate StopPending(s: Sys) {
    exists k :: k in s.stops && !s.stops[k].Done?
  }

  /** What the state field says about the stage of the run. */
  ghost predicate Labelled(s: Sys) {
    && (s.f.state == Stopping ==> StopPending(s))
    && (s.chain.Over? ==> s.f.state in {Stopping, Stopped, Failed})
    && (s.chain.Ending? ==> s.chain.to in {Stopped, Failed})
    && (s.chain.Entering? && s.f.cmd.None? ==> s.f.state in {Stopping, Stopped})
  }

  lemma LabelledStop(policy: Policy, s: Sys, step: Step)
    requires Inv(policy, s) && Labelled(s) && Enabled(s, step)
    requires step.StopCall? || step.StopQuick? || step.StopGone? || step.StopForced?
    ensures Labelled(Apply(s, step))
  {
    hide Legal, Attempts;
    var t := Apply(s, step);
    assert step.k in t.stops;
  }

  lemma LabelledStep(policy: Policy, s: Sys, step: Step)
    requires Inv(policy, s) && Labelled(s) && Enabled(s, step)
    ensures Labelled(Apply(s, step))
  {
    hide Legal, Attempts;
    if step.StopCall? || step.StopQuick? || step.StopGone? || step.StopForced? {
      LabelledStop(policy, s, step);
    } else {
      assert Apply(s, step).stops == s.stops;
    }
  }

  lemma {:induction false} LabelledPath(policy: Policy, b: seq<Sys>, i: nat)
    requires Path(b) && b[0] == Init(policy) && i < |b|
    ensures Inv(policy, b[i]) && Labelled(b[i])
  {
    hide Inv, Labelled, Enabled, Apply;
    PathInv(policy, b, i);
    if i == 0 {
      LabelledInit(policy);
    } else {
      LabelledPath(policy, b, i - 1);
      assert Next(b[i-1], b[i]);
      var step :| Enabled(b[i-1], step) && b[i] == Apply(b[i-1], step);
      LabelledStep(policy, b[i-1], step);
    }
  }

  lemma LabelledInit(policy: Policy)
    ensures Labelled(Init(policy))
  {
  }

  /** Once the monitor chain is over and every Stop has returned, the manager reports stopped or failed and holds
      no process and no group, whatever the interleaving. */
  lemma AtRest(policy: Policy, s: Sys)
    requires Reachable(policy, s) && s.chain.Over? && forall k | k in s.stops :: s.stops[k].Done?
    ensures s.f.state == Stopped || s.f.state == Failed
    ensures s.f.cmd.None? && s.f.pgid == 0
  {
    var b :| Path(b) && b[0] == Init(policy) && b[|b|-1] == s;
    LabelledPath(policy, b, |b| - 1);
  }

  predicate Halting(s: Sys) {
    s.f.stopping && !s.chain.NotStarted?
  }

  lemma HaltingStep(s: Sys, step: Step)
    requires Halting(s) && Enabled(s, step)
    ensures var t := Apply(s, step);
            && Halting(t)
            && Attempts(s.log) <= Attempts(t.log)
            && Attempts(t.log) + Due(t.chain) <= Attempts(s.log) + Due(s.chain)
  {
  }

  lemma {:induction false} HaltingPath(c: seq<Sys>, j: nat)
    requires Path(c) && Halting(c[0]) && j < |c|
    ensures Halting(c[j])
    ensures Attempts(c[j].log) + Due(c[j].chain) <= Attempts(c[0].log) + Due(c[0].chain)
  {
    if j > 0 {
      HaltingPath(c, j - 1);
      assert Next(c[j-1], c[j]);
      var step :| Enabled(c[j-1], step) && c[j] == Apply(c[j-1], step);
      HaltingStep(c[j-1], step);
    }
  }

  /** Some continuation attempts another launch. */
  ghost predicate CanAttempt(s: Sys) {
    exists c: seq<Sys> :: Path(c) && c[0] == s && Attempts(c[|c|-1].log) > Attempts(s.log)
  }

  lemma TwoStepPath(s: Sys, a: Step, b: Step) returns (c: seq<Sys>)
    requires Enabled(s, a) && Enabled(Apply(s, a), b)
    ensures c == [s, Apply(s, a), Apply(Apply(s, a), b)] && Path(c)
  {
    c := [s, Apply(s, a), Apply(Apply(s, a), b)];
    assert Next(c[0], c[1]) && Next(c[1], c[2]);
  }

  lemma OneStepPath(s: Sys, a: Step) returns (c: seq<Sys>)
    requires Enabled(s, a)
    ensures c == [s, Apply(s, a)] && Path(c)
  {
    c := [s, Apply(s, a)];
    assert Next(c[0], c[1]);
  }

  /** Once `stopping` is set, a further launch attempt is possible exactly when one was already under way, past
      the re-check and before the exec; and then at most one more follows in any continuation. */
  lemma AtMostOneLateLaunch(s: Sys)
    requires Halting(s)
    ensures CanAttempt(s) <==> s.chain.Marking? || s.chain.Execing?
    ensures forall c: seq<Sys> | Path(c) && c[0] == s ::
              Attempts(c[|c|-1].log) <= Attempts(s.log) + Due(s.chain) <= Attempts(s.log) + 1
  {
    forall c: seq<Sys> | Path(c) && c[0] == s ensures Attempts(c[|c|-1].log) <= Attempts(s.log) + Due(s.chain) {
      HaltingPath(c, |c| - 1);
    }
    if s.chain.Marking? {
      var c := TwoStepPath(s, Mark, Exec(false));
      AttemptsSnoc(s.log, Attempted(!s.chain.first, false));
      assert Attempts(c[|c|-1].log) > Attempts(s.log);
    } else if s.chain.Execing? {
      var c := OneStepPath(s, Exec(false));
      AttemptsSnoc(s.log, Attempted(!s.chain.first, false));
      assert Attempts(c[|c|-1].log) > Attempts(s.log);
    }
  }

  // ---- when a restart follows ----

  /** What the guarded policy and the values read after an exit say about the Stops so far. */
  ghost predicate PolicyTracked(policy: Policy, s: Sys) {
    && s.f.policy == (if s.stops == map[] then policy else NoRestart)
    && (s.f.stopping ==> s.stops != map[])
    && (s.chain.Deciding? ==>
          && (s.chain.stopping ==> s.f.stopping)
          && (s.stops == map[] ==> s.chain.policy == policy)
          && (s.stops != map[] && s.chain.policy != NoRestart ==> s.f.stopping))
  }

  lemma PolicyTrackedStop(policy: Policy, s: Sys, step: Step)
    requires PolicyTracked(policy, s) && Enabled(s, step)
    requires step.StopCall? || step.StopQuick? || step.StopGone? || step.StopForced?
    ensures PolicyTracked(policy, Apply(s, step))
  {
    assert step.k in Apply(s, step).stops;
    assert !step.StopCall? ==> step.k in s.stops;
  }

  lemma PolicyTrackedStep(policy: Policy, s: Sys, step: Step)
    requires PolicyTracked(policy, s) && Enabled(s, step)
    ensures PolicyTracked(policy, Apply(s, step))
  {
    if step.StopCall? || step.StopQuick? || step.StopGone? || step.StopForced? {
      PolicyTrackedStop(policy, s, step);
    } else {
      assert Apply(s, step).stops == s.stops;
    }
  }

  lemma {:induction false} PolicyTrackedPath(policy: Policy, b: seq<Sys>, i: nat)
    requires Path(b) && b[0] == Init(policy) && i < |b|
    ensures PolicyTracked(policy, b[i])
  {
    if i > 0 {
      PolicyTrackedPath(policy, b, i - 1);
      assert Next(b[i-1], b[i]);
      var step :| Enabled(b[i-1], step) && b[i] == Apply(b[i-1], step);
      PolicyTrackedStep(policy, b[i-1], step);
    }
  }

  /** The chain is on its way out. */
  predicate Finishing(s: Sys) {
    s.chain.Over? || s.chain.Ending?
    || (s.chain.Deciding? && (s.chain.stopping || !ShouldRestart(s.chain.policy, s.chain.failed)))
  }

  lemma FinishingStep(s: Sys, step: Step)
    requires Finishing(s) && Enabled(s, step)
    ensures Finishing(Apply(s, step)) && Attempts(Apply(s, step).log) == Attempts(s.log)
  {
    hide ShouldRestart;
    if step.Exit? {
      AttemptsSnoc(s.log, Exited(step.failed));
    }
  }

  lemma {:induction false} FinishingPath(c: seq<Sys>, j: nat)
    requires Path(c) && Finishing(c[0]) && j < |c|
    ensures Finishing(c[j]) && Attempts(c[j].log) == Attempts(c[0].log)
  {
    hide Finishing;
    if j > 0 {
      FinishingPath(c, j - 1);
      assert Next(c[j-1], c[j]);
      var step :| Enabled(c[j-1], step) && c[j] == Apply(c[j-1], step);
      FinishingStep(c[j-1], step);
    }
  }

  lemma PathSnoc(c: seq<Sys>, step: Step) returns (d: seq<Sys>)
    requires Path(c) && Enabled(c[|c|-1], step)
    ensures d == c + [Apply(c[|c|-1], step)] && Path(d) && d[|d|-1] == Apply(c[|c|-1], step)
  {
    hide Enabled, Apply;
    d := c + [Apply(c[|c|-1], step)];
    assert Next(c[|c|-1], d[|c|]);
  }

  /** Where the policy calls for it and nothing stops it, the relaunch can be attempted. */
  lemma RelaunchPath(s: Sys) returns (c: seq<Sys>)
    requires s.chain.Deciding? && !s.chain.stopping && ShouldRestart(s.chain.policy, s.chain.failed) && !s.f.stopping
    ensures Path(c) && c[0] == s && Attempts(c[|c|-1].log) > Attempts(s.log)
  {
    c := [s];
    c := PathSnoc(c, Decide);
    c := PathSnoc(c, Timer);
    c := PathSnoc(c, DoRecheck);
    c := PathSnoc(c, Mark);
    c := PathSnoc(c, Exec(false));
    AttemptsSnoc(s.log, Attempted(true, false));
  }

  /** After an exit another launch can follow exactly when the configured policy asks for it and no Stop has ever been
      called, not even before Start. */
  lemma RestartIff(policy: Policy, s: Sys)
    requires Reachable(policy, s) && s.chain.Deciding?
    ensures CanAttempt(s) <==> s.stops == map[] && (policy == Always || (policy == OnFailure && s.chain.failed))
  {
    var b :| Path(b) && b[0] == Init(policy) && b[|b|-1] == s;
    PolicyTrackedPath(policy, b, |b| - 1);
    if s.f.stopping {
      AtMostOneLateLaunch(s);
    } else if Finishing(s) {
      forall c: seq<Sys> | Path(c) && c[0] == s ensures Attempts(c[|c|-1].log) == Attempts(s.log) {
        FinishingPath(c, |c| - 1);
      }
    } else {
      var c := RelaunchPath(s);
    }
  }

  /** "Stop disables further restarts until Start": a Start does not bring them back. */
  lemma StartDoesNotRestore(policy: Policy, k: nat) returns (s: Sys)
    ensures Reachable(policy, s) && s.chain == Deciding(false, NoRestart, true) && !s.f.stopping && !CanAttempt(s)
  {
    var c := PathSnoc([Init(policy)], StopCall(k));
    c := PathSnoc(c, StopQuick(k));
    c := StartedAndFailed(policy, c);
    s := c[|c|-1];
    RestartIff(policy, s);
  }

  lemma StartedAndFailed(policy: Policy, c0: seq<Sys>) returns (c: seq<Sys>)
    requires Path(c0) && c0[0] == Init(policy)
    requires var s := c0[|c0|-1];
             && s.chain.NotStarted? && !Active(s.f) && s.f.policy == NoRestart
             && s.launched == 0 && s.live == {} && s.stops != map[]
    ensures Path(c) && c[0] == Init(policy)
    ensures var s := c[|c|-1]; s.chain == Deciding(false, NoRestart, true) && !s.f.stopping && s.stops != map[]
  {
    hide Attempts;
    c := PathSnoc(c0, Start);
    c := PathSnoc(c, Mark);
    c := PathSnoc(c, Exec(true));
    c := PathSnoc(c, Record);
    c := PathSnoc(c, Enter);
    c := PathSnoc(c, Exit(1, true));
    c := PathSnoc(c, WaitReturns);
    c := PathSnoc(c, DoReap);
  }

  /** How an undisturbed run can end badly: with a launch that failed, or a failing exit under a policy without
      restarts. */
  predicate EndedBadly(policy: Policy, log: seq<Event>) {
    log != [] && match log[|log|-1]
                 case Attempted(_, ok) => !ok
                 case Exited(failed) => failed && policy == NoRestart
  }

  ghost predicate LabelTracked(policy: Policy, s: Sys) {
    s.stops == map[] ==>
      && (s.chain.Over? ==> (s.f.state == Failed <==> EndedBadly(policy, s.log)))
      && (s.chain.Ending? ==> (s.chain.to == Failed <==> EndedBadly(policy, s.log)))
  }

  lemma LabelTrackedStep(policy: Policy, s: Sys, step: Step)
    requires Inv(policy, s) && Undisturbed(s) && PolicyTracked(policy, s) && LabelTracked(policy, s) && Enabled(s, step)
    ensures LabelTracked(policy, Apply(s, step))
  {
    hide Legal, Attempts;
    if step.StopCall? || step.StopQuick? || step.StopGone? || step.StopForced? {
      assert step.k in Apply(s, step).stops;
    } else {
      assert Apply(s, step).stops == s.stops;
    }
  }

  lemma {:induction false} LabelTrackedPath(policy: Policy, b: seq<Sys>, i: nat)
    requires Path(b) && b[0] == Init(policy) && i < |b|
    ensures LabelTracked(policy, b[i])
  {
    hide Enabled, Apply, Inv, Undisturbed, PolicyTracked;
    if i > 0 {
      LabelTrackedPath(policy, b, i - 1);
      PathInv(policy, b, i - 1);
      PolicyTrackedPath(policy, b, i - 1);
      assert Next(b[i-1], b[i]);
      var step :| Enabled(b[i-1], step) && b[i] == Apply(b[i-1], step);
      LabelTrackedStep(policy, b[i-1], step);
    }
  }

  /** Without any Stop the supervisor ends up failed exactly when a launch failed, or a process failed that the policy
      does not restart; otherwise it ends up stopped. */
  lemma FailedIff(policy: Policy, s: Sys)
    requires Reachable(policy, s) && s.stops == map[] && s.chain.Over?
    ensures s.f.state == if EndedBadly(policy, s.log) then Failed else Stopped
  {
    hide EndedBadly;
    var b :| Path(b) && b[0] == Init(policy) && b[|b|-1] == s;
    LabelTrackedPath(policy, b, |b| - 1);
    AtRest(policy, s);
  }

  /** A launch is decided but not made, or its process is alive but not yet in the fields Stop reads. */
  predicate InFlight(s: Sys) {
    s.chain.Marking? || s.chain.Execing? || (s.chain.Recording? && s.live != {})
  }

  /** Stop `k` is being carried out, or over, with nothing but its own target left alive. */
  ghost predicate Winding(s: Sys, k: nat) {
    && Halting(s) && Due(s.chain) == 0 && 0 !in s.live
    && k in s.stops
    && match s.stops[k]
       case Quick => s.live == {}
       case Killing(g) => s.live <= {g}
       case Done(_, graceful) => graceful ==> s.live == {}
  }

  lemma WindingStep(s: Sys, k: nat, step: Step)
    requires Winding(s, k) && Enabled(s, step)
    ensures Winding(Apply(s, step), k)
  {
  }

  lemma WindingNext(s: Sys, k: nat, t: Sys)
    requires Winding(s, k) && Next(s, t)
    ensures Winding(t, k)
  {
    var step :| Enabled(s, step) && t == Apply(s, step);
    WindingStep(s, k, step);
  }

  lemma {:induction false} WindingPath(c: seq<Sys>, k: nat, i: nat, j: nat)
    requires Path(c) && i <= j < |c| && Winding(c[i], k)
    ensures Winding(c[j], k)
    decreases j
  {
    if i < j {
      WindingPath(c, k, i, j - 1);
      assert Next(c[j-1], c[j]);
      WindingNext(c[j-1], k, c[j]);
    }
  }

  /** A continuation that begins by calling Stop and in which that call has returned without resorting to
      SIGKILL or giving up on its context. */
  ghost predicate StopReturns(s: Sys, k: nat, c: seq<Sys>) {
    && Path(c) && |c| >= 2 && c[0] == s && Enabled(s, StopCall(k)) && c[1] == Apply(s, StopCall(k))
    && var e := c[|c|-1]; k in e.stops && e.stops[k].Done? && e.stops[k].graceful
  }

  lemma Append(s: Sys, k: nat, c: seq<Sys>, step: Step) returns (d: seq<Sys>)
    requires StopReturns(s, k, c) && Enabled(c[|c|-1], step) && !step.StopCall?
    requires !step.StopQuick? && !step.StopGone? && !step.StopForced?
    ensures StopReturns(s, k, d) && d[|d|-1] == Apply(c[|c|-1], step)
  {
    d := c + [Apply(c[|c|-1], step)];
    assert Next(c[|c|-1], d[|c|]);
  }

  lemma ReturnAtOnce(policy: Policy, s: Sys, k: nat) returns (c: seq<Sys>)
    requires Inv(policy, s) && s.stops == map[] && InFlight(s)
    ensures StopReturns(s, k, c) && c[|c|-1].chain == s.chain && c[|c|-1].live == s.live
  {
    if Active(s.f) {
      c := TwoStepPath(s, StopCall(k), StopGone(k));
    } else {
      c := TwoStepPath(s, StopCall(k), StopQuick(k));
    }
  }

  /** The race: Stop called while a launch is in flight sees no process group, returns, and the process comes
      up afterwards. */
  lemma StopCanMissLaunch(policy: Policy, s: Sys, k: nat) returns (c: seq<Sys>)
    requires Reachable(policy, s) && s.stops == map[] && InFlight(s)
    ensures StopReturns(s, k, c) && c[|c|-1].live != {}
  {
    ReachableInv(policy, s);
    c := ReturnAtOnce(policy, s, k);
    if s.chain.Marking? {
      c := Append(s, k, c, Mark);
    }
    if !s.chain.Recording? {
      c := Append(s, k, c, Exec(true));
    }
  }

  /** "Stop terminates the session WM" holds of the first Stop exactly when no launch is in flight as it
      begins: then nothing is ever alive again once it has returned; otherwise some run leaves a process behind. */
  lemma FirstStopIsFinalIff(policy: Policy, s: Sys, k: nat)
    requires Reachable(policy, s) && s.stops == map[] && !s.chain.NotStarted?
    ensures (forall c: seq<Sys> | StopReturns(s, k, c) :: c[|c|-1].live == {}) <==> !InFlight(s)
  {
    ReachableInv(policy, s);
    if InFlight(s) {
      var c := StopCanMissLaunch(policy, s, k);
    } else {
      forall c: seq<Sys> | StopReturns(s, k, c) ensures c[|c|-1].live == {} {
        WindingPath(c, k, 1, |c| - 1);
      }
    }
  }
}

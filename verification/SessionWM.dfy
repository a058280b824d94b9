/** The session WM supervisor: the fields behind its mutex, and every interleaving of one Start, any number
    of Stops, the monitor chain and process exits, one critical section at a time. */
module SessionWM {

  datatype Policy = Always | OnFailure | NoRestart

  datatype WmState = Idle | Starting | Running | Stopping | Stopped | Failed

  datatype Option<T> = None | Some(value: T)

  /** The guarded fields. A process is named by its launch number, which also stands for its process group;
      `pgid` 0 means no group. */
  datatype Fields = Fields(state: WmState, cmd: Option<nat>, pgid: nat, restartCount: nat, stopping: bool,
            policy: Policy)

  predicate Active(f: Fields) {
    f.state == Running || f.state == Starting
  }

  function Gate(f: Fields): Fields {
    if Active(f) then f else f.(stopping := false)
  }

  function RecordLaunch(f: Fields, p: nat): Fields {
    f.(cmd := Some(p), pgid := p, state := Running)
  }

  function Reap(f: Fields): Fields {
    f.(cmd := None, pgid := 0)
  }

  function Recheck(f: Fields): Fields {
    if f.stopping then f.(state := Stopped) else f.(restartCount := f.restartCount + 1)
  }

  function BeginStop(f: Fields): Fields {
    f.(stopping := true, policy := NoRestart, state := Stopping)
  }

  function Cleanup(f: Fields): Fields {
    Reap(f).(state := Stopped)
  }

  predicate ShouldRestart(policy: Policy, failed: bool) {
    match policy
    case Always => true
    case OnFailure => failed
    case NoRestart => false
  }

  /** The manager object. Each method is one critical section of the source and is what the step relation
      below applies to the fields. */
  class Manager {
    var state: WmState
    var cmd: Option<nat>
    var pgid: nat
    var restartCount: nat
    var stopping: bool
    var policy: Policy

    function Snapshot(): Fields
      reads this
    {
      Fields(state, cmd, pgid, restartCount, stopping, policy)
    }

    constructor (policy: Policy)
      ensures Snapshot() == Fresh(policy)
    {
      this.state, this.cmd, this.pgid := Idle, None, 0;
      this.restartCount, this.stopping, this.policy := 0, false, policy;
    }

    method StartGate() returns (proceed: bool)
      modifies this
      ensures proceed == !Active(old(Snapshot())) && Snapshot() == Gate(old(Snapshot()))
    {
      if state == Running || state == Starting {
        return false;
      }
      stopping := false;
      return true;
    }

    method SetState(to: WmState)
      modifies this`state
      ensures Snapshot() == old(Snapshot()).(state := to)
    {
      state := to;
    }

    method Launched(p: nat)
      modifies this
      ensures Snapshot() == RecordLaunch(old(Snapshot()), p)
    {
      cmd := Some(p);
      pgid := p;
      state := Running;
    }

    method AfterWait() returns (wasStopping: bool, current: Policy)
      modifies this
      ensures Snapshot() == Reap(old(Snapshot()))
      ensures wasStopping == old(stopping) && current == old(policy)
    {
      wasStopping, current := stopping, policy;
      cmd := None;
      pgid := 0;
    }

    method AfterBackoff() returns (relaunch: bool)
      modifies this
      ensures Snapshot() == Recheck(old(Snapshot())) && relaunch == !old(stopping)
    {
      if stopping {
        state := Stopped;
        return false;
      }
      restartCount := restartCount + 1;
      return true;
    }

    method StopSection() returns (group: nat, active: bool)
      modifies this
      ensures Snapshot() == BeginStop(old(Snapshot()))
      ensures group == old(pgid) && active == Active(old(Snapshot()))
    {
      stopping := true;
      policy := NoRestart;
      group := pgid;
      active := state == Running || state == Starting;
      state := Stopping;
    }

    method CleanupLocked()
      modifies this
      ensures Snapshot() == Cleanup(old(Snapshot()))
    {
      state := Stopped;
      cmd := None;
      pgid := 0;
    }
  }

  function Fresh(policy: Policy): Fields {
    Fields(Idle, None, 0, 0, false, policy)
  }

  /** Where the single supervision token stands. Start carries it through the first launch, the monitor
      goroutine takes it from there. */
  datatype Chain =
    | NotStarted
    | Marking(first: bool)
    | Execing(first: bool)
    | Recording(p: nat)
    | LaunchFailed(first: bool)
    | Entering
    | Waiting(p: nat)
    | Reaping(failed: bool)
    | Deciding(stopping: bool, policy: Policy, failed: bool)
    | Backoff
    | Rechecking
    | Ending(to: WmState)
    | Over

  datatype StopPc = Quick | Killing(group: nat) | Done(group: nat, graceful: bool)

  /** The launch log. */
  datatype Event = Attempted(relaunch: bool, ok: bool) | Exited(failed: bool)

  datatype Sys = Sys(f: Fields, chain: Chain, launched: nat, live: set<nat>, exits: map<nat, bool>, stops: map<nat,
            StopPc>, log: seq<Event>)

  datatype Step =
    | Start
    | Mark
    | Exec(ok: bool)
    | Record
    | GiveUp
    | Enter
    | Exit(p: nat, failed: bool)
    | WaitReturns
    | DoReap
    | Decide
    | Timer
    | ContextDone
    | DoRecheck
    | End
    | StopCall(k: nat)
    | StopQuick(k: nat)
    | StopGone(k: nat)
    | StopForced(k: nat)

  function Init(policy: Policy): Sys {
    Sys(Fresh(policy), NotStarted, 0, {}, map[], map[], [])
  }

  predicate Enabled(s: Sys, step: Step) {
    match step
    case Start => s.chain.NotStarted?
    case Mark => s.chain.Marking?
    case Exec(_) => s.chain.Execing?
    case Record => s.chain.Recording?
    case GiveUp => s.chain.LaunchFailed?
    case Enter => s.chain.Entering?
    case Exit(p, _) => p in s.live
    case WaitReturns => s.chain.Waiting? && s.chain.p in s.exits
    case DoReap => s.chain.Reaping?
    case Decide => s.chain.Deciding?
    case Timer => s.chain.Backoff?
    case ContextDone => s.chain.Backoff?
    case DoRecheck => s.chain.Rechecking?
    case End => s.chain.Ending?
    case StopCall(k) => k !in s.stops
    case StopQuick(k) => k in s.stops && s.stops[k].Quick?
    case StopGone(k) => k in s.stops && s.stops[k].Killing? && s.stops[k].group !in s.live
    case StopForced(k) => k in s.stops && s.stops[k].Killing? && s.stops[k].group != 0
  }

  function SetState(s: Sys, to: WmState): Sys {
    s.(f := s.f.(state := to))
  }

  function Apply(s: Sys, step: Step): Sys
    requires Enabled(s, step)
  {
    match step
    case Start => s.(f := Gate(s.f), chain := if Active(s.f) then Over else Marking(true))
    case Mark => SetState(s, Starting).(chain := Execing(s.chain.first))
    case Exec(ok) =>
      var t := s.(log := s.log + [Attempted(!s.chain.first, ok)]);
      if ok then t.(launched := s.launched + 1, live := s.live + {s.launched + 1}, chain := Recording(s.launched + 1))
      else t.(chain := LaunchFailed(s.chain.first))
    case Record => s.(f := RecordLaunch(s.f, s.chain.p), chain := Entering)
    case GiveUp =>
      // A failed relaunch makes the monitor set the failed state once more.
      SetState(s, Failed).(chain := if s.chain.first then Over else Ending(Failed))
    case Enter => s.(chain := if s.f.cmd.Some? then Waiting(s.f.cmd.value) else Over)
    case Exit(p, failed) => s.(live := s.live - {p}, exits := s.exits[p := failed], log := s.log + [Exited(failed)])
    case WaitReturns => s.(chain := Reaping(s.exits[s.chain.p]))
    case DoReap => s.(f := Reap(s.f), chain := Deciding(s.f.stopping, s.f.policy, s.chain.failed))
    case Decide =>
      s.(chain :=
        if s.chain.stopping then Ending(Stopped)
        else if !ShouldRestart(s.chain.policy, s.chain.failed) then Ending(if s.chain.failed then Failed else Stopped)
        else Backoff)
    case Timer => s.(chain := Rechecking)
    case ContextDone => s.(chain := Ending(Stopped))
    case DoRecheck => s.(f := Recheck(s.f), chain := if s.f.stopping then Over else Marking(false))
    case End => SetState(s, s.chain.to).(chain := Over)
    case StopCall(k) =>
      s.(f := BeginStop(s.f), stops := s.stops[k := if Active(s.f) then Killing(s.f.pgid) else Quick])
    case StopQuick(k) => SetState(s, Stopped).(stops := s.stops[k := Done(0, true)])
    case StopGone(k) => s.(f := Cleanup(s.f), stops := s.stops[k := Done(s.stops[k].group, true)])
    case StopForced(k) => s.(f := Cleanup(s.f), stops := s.stops[k := Done(s.stops[k].group, false)])
  }

  predicate Endswith(log: seq<Event>, e: Event) {
    log != [] && log[|log|-1] == e
  }

  function Attempts(log: seq<Event>): nat {
    if log == [] then 0 else Attempts(log[..|log|-1]) + (if log[|log|-1].Attempted? then 1 else 0)
  }

  /** A launch that has been decided but not attempted. */
  function Due(c: Chain): nat {
    if c.Marking? || c.Execing? then 1 else 0
  }

  /** The launch log of a supervisor with the given policy: one first attempt, then strictly alternating exits
      and relaunches, each relaunch allowed by the policy for the exit just before it. */
  ghost predicate Legal(policy: Policy, log: seq<Event>) {
    && (forall k | 0 <= k < |log| && log[k].Attempted? :: log[k].relaunch <==> k > 0)
    && (log != [] ==> log[0].Attempted?)
    && (forall j, k | 0 <= j && j + 1 == k < |log| && log[k].Exited? :: log[j].Attempted? && log[j].ok)
    && (forall j, k | 0 <= j && j + 1 == k < |log| && log[k].Attempted? ::
          log[j].Exited? && ShouldRestart(policy, log[j].failed))
  }

  /** How the chain's position and the end of the log correspond. */
  ghost predicate ChainInv(policy: Policy, s: Sys) {
    match s.chain
    case NotStarted => s.log == [] && s.launched == 0 && s.f.cmd.None? && s.f.pgid == 0 && s.f.restartCount == 0
                       && !Active(s.f) && forall k | k in s.stops ::
                                 !s.stops[k].Killing? && (s.stops[k].Done? ==> s.stops[k].group == 0)
    case Marking(first) => if first then s.log == [] else MayRelaunch(policy, s)
    case Execing(first) => if first then s.log == [] else MayRelaunch(policy, s)
    case Recording(p) => p == s.launched && s.log != [] && (s.log[|s.log|-1].Attempted? ==> s.log[|s.log|-1].ok)
    case LaunchFailed(_) => s.log != [] && s.log[|s.log|-1].Attempted? && !s.log[|s.log|-1].ok
    case Entering => s.log != [] && (s.log[|s.log|-1].Attempted? ==> s.log[|s.log|-1].ok)
    case Waiting(p) => p == s.launched && s.log != [] && (s.log[|s.log|-1].Attempted? ==> s.log[|s.log|-1].ok)
    case Reaping(failed) => Endswith(s.log, Exited(failed))
    case Deciding(stopping, current, failed) =>
      Endswith(s.log, Exited(failed)) && (current == policy || current == NoRestart)
    case Backoff => MayRelaunch(policy, s)
    case Rechecking => MayRelaunch(policy, s)
    case Ending(_) => s.log != [] && (s.log[|s.log|-1].Attempted? ==> !s.log[|s.log|-1].ok)
    case Over => true
  }

  ghost predicate MayRelaunch(policy: Policy, s: Sys) {
    s.log != [] && s.log[|s.log|-1].Exited? && ShouldRestart(policy, s.log[|s.log|-1].failed)
  }

  /** A process is alive exactly when the log ends in a successful attempt. */
  ghost predicate LiveInv(s: Sys) {
    && s.live == (if s.log != [] && s.log[|s.log|-1].Attempted? && s.log[|s.log|-1].ok then {s.launched} else {})
    && (forall p | p in s.exits :: p <= s.launched)
    && (s.log != [] && s.log[|s.log|-1].Exited? ==>
              s.launched in s.exits && s.exits[s.launched] == s.log[|s.log|-1].failed)
    && (s.live != {} ==> s.launched !in s.exits && s.launched > 0)
  }

  ghost predicate FieldInv(policy: Policy, s: Sys) {
    && (s.f.policy == policy || s.f.policy == NoRestart)
    && (s.f.cmd.Some? ==> s.f.cmd.value == s.launched && s.f.pgid == s.launched)
    && (s.f.pgid != 0 ==> s.f.cmd.Some? && (s.chain.Entering? || s.chain.Waiting? || s.chain.Reaping?))
    && (s.f.cmd.Some? ==> s.chain.Entering? || s.chain.Waiting? || s.chain.Reaping?)
    && (!s.chain.NotStarted? ==> Attempts(s.log) + Due(s.chain) == 1 + s.f.restartCount)
    && (s.chain.Recording? || s.chain.Entering? || s.chain.Waiting? ==> s.launched > 0)
  }

  ghost predicate Inv(policy: Policy, s: Sys) {
    Legal(policy, s.log) && ChainInv(policy, s) && LiveInv(s) && FieldInv(policy, s)
  }

  lemma InitInv(policy: Policy)
    ensures Inv(policy, Init(policy))
  {
  }

  lemma AttemptsSnoc(log: seq<Event>, e: Event)
    ensures Attempts(log + [e]) == Attempts(log) + if e.Attempted? then 1 else 0
  {
  }

  lemma LegalSnoc(policy: Policy, log: seq<Event>, e: Event)
    requires Legal(policy, log)
    requires e.Attempted? ==> (e.relaunch <==> log != [])
    requires log == [] ==> e.Attempted?
    requires log != [] && e.Exited? ==> log[|log|-1].Attempted? && log[|log|-1].ok
    requires log != [] && e.Attempted? ==> log[|log|-1].Exited? && ShouldRestart(policy, log[|log|-1].failed)
    ensures Legal(policy, log + [e])
  {
  }

  lemma ExecLegal(policy: Policy, s: Sys, ok: bool)
    requires Inv(policy, s) && Enabled(s, Exec(ok))
    ensures var t := Apply(s, Exec(ok));
            Legal(policy, t.log) && Attempts(t.log) == Attempts(s.log) + 1
  {
    hide Attempts, LiveInv, FieldInv;
    var e := Attempted(!s.chain.first, ok);
    AttemptsSnoc(s.log, e);
    LegalSnoc(policy, s.log, e);
    assert Apply(s, Exec(ok)).log == s.log + [e];
  }

  lemma ExecLive(policy: Policy, s: Sys, ok: bool)
    requires Inv(policy, s) && Enabled(s, Exec(ok))
    ensures var t := Apply(s, Exec(ok));
            LiveInv(t) && t.log != [] && t.log[|t.log|-1] == Attempted(!s.chain.first, ok)
  {
  }

  lemma ExecInv(policy: Policy, s: Sys, ok: bool)
    requires Inv(policy, s) && Enabled(s, Exec(ok))
    ensures Inv(policy, Apply(s, Exec(ok)))
  {
    hide Legal, Attempts;
    ExecLegal(policy, s, ok);
    ExecLive(policy, s, ok);
  }

  lemma ExitInv(policy: Policy, s: Sys, p: nat, failed: bool)
    requires Inv(policy, s) && Enabled(s, Exit(p, failed))
    ensures Inv(policy, Apply(s, Exit(p, failed)))
  {
  }

  lemma StopInv(policy: Policy, s: Sys, step: Step)
    requires Inv(policy, s) && Enabled(s, step)
    requires step.StopCall? || step.StopQuick? || step.StopGone? || step.StopForced?
    ensures Inv(policy, Apply(s, step))
  {
    hide Legal, Attempts;
  }

  lemma LaunchInv(policy: Policy, s: Sys, step: Step)
    requires Inv(policy, s) && Enabled(s, step)
    requires step.Start? || step.Mark? || step.Record? || step.GiveUp? || step.Enter?
    ensures Inv(policy, Apply(s, step))
  {
    hide Legal;
  }

  lemma MonitorInv(policy: Policy, s: Sys, step: Step)
    requires Inv(policy, s) && Enabled(s, step)
    requires step.WaitReturns? || step.DoReap? || step.Decide? || step.Timer? || step.ContextDone? ||
              step.DoRecheck? || step.End?
    ensures Inv(policy, Apply(s, step))
  {
    hide Legal, Attempts;
  }

  lemma StepInv(policy: Policy, s: Sys, step: Step)
    requires Inv(policy, s) && Enabled(s, step)
    ensures Inv(policy, Apply(s, step))
  {
    match step
    case Exec(ok) => ExecInv(policy, s, ok);
    case Exit(p, failed) => ExitInv(policy, s, p, failed);
    case StopCall(_) => StopInv(policy, s, step);
    case StopQuick(_) => StopInv(policy, s, step);
    case StopGone(_) => StopInv(policy, s, step);
    case StopForced(_) => StopInv(policy, s, step);
    case Start => LaunchInv(policy, s, step);
    case Mark => LaunchInv(policy, s, step);
    case Record => LaunchInv(policy, s, step);
    case GiveUp => LaunchInv(policy, s, step);
    case Enter => LaunchInv(policy, s, step);
    case _ => MonitorInv(policy, s, step);
  }
}

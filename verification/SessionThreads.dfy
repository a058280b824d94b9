/** The session WM supervisor thread by thread: Start's caller and every monitor goroutine run the same code over the
    shared fields, each at its own place. That they never run side by side is proved, and with it that the single chain
    of `SessionWM` is what all of them together do. */
module SessionThreads {
  import opened SessionWM
  import opened SessionSafety

  /** Thread 0 is Start's caller; the others are the monitor goroutines spawned so far. */
  datatype Threads = Threads(
    chains: map<nat, Chain>,
    f: Fields,
    launched: nat,
    live: set<nat>,
    exits: map<nat, bool>,
    stops: map<nat, StopPc>,
    log: seq<Event>)

  /** `Run` is a critical section of thread `i`; `Spawn` records the launched process, starts monitor `j` and returns;
      `Outside` is a step of a Stop or a process exit. */
  datatype ThreadStep = Run(i: nat, step: Step) | Spawn(i: nat, j: nat) | Outside(step: Step)

  /** The system as a thread at place `c` sees it. */
  function With(t: Threads, c: Chain): Sys {
    Sys(t.f, c, t.launched, t.live, t.exits, t.stops, t.log)
  }

  function From(s: Sys, chains: map<nat, Chain>): Threads {
    Threads(chains, s.f, s.launched, s.live, s.exits, s.stops, s.log)
  }

  predicate IsOutside(step: Step) {
    step.Exit? || step.StopCall? || step.StopQuick? || step.StopGone? || step.StopForced?
  }

  predicate CanTake(t: Threads, step: ThreadStep) {
    match step
    case Run(i, st) => i in t.chains && !IsOutside(st) && !st.Record? && Enabled(With(t, t.chains[i]), st)
    case Spawn(i, j) => i in t.chains && t.chains[i].Recording? && j !in t.chains
    case Outside(st) => IsOutside(st) && Enabled(With(t, Over), st)
  }

  function Taken(t: Threads, step: ThreadStep): Threads
    requires CanTake(t, step)
  {
    match step
    case Run(i, st) =>
      var s := Apply(With(t, t.chains[i]), st);
      From(s, t.chains[i := s.chain])
    case Spawn(i, j) =>
      var s := Apply(With(t, t.chains[i]), Record);
      From(s, t.chains[i := Over][j := s.chain])
    case Outside(st) => From(Apply(With(t, Over), st), t.chains)
  }

  function ThreadsInit(policy: Policy): Threads {
    From(Init(policy), map[0 := NotStarted])
  }

  ghost predicate ThreadsNext(t: Threads, u: Threads) {
    exists step :: CanTake(t, step) && u == Taken(t, step)
  }

  ghost predicate ThreadsPath(c: seq<Threads>) {
    c != [] && forall i, j | 0 <= i && i + 1 == j < |c| :: ThreadsNext(c[i], c[j])
  }

  ghost predicate ThreadsReachable(policy: Policy, t: Threads) {
    exists c :: ThreadsPath(c) && c[0] == ThreadsInit(policy) && c[|c|-1] == t
  }

  predicate Busy(t: Threads, i: nat) {
    i in t.chains && !t.chains[i].Over?
  }

  /** At most one thread has anything left to do. */
  ghost predicate OneToken(t: Threads) {
    forall i, j | Busy(t, i) && Busy(t, j) :: i == j
  }

  /** The single chain stands where the one active thread stands. */
  ghost predicate Stands(t: Threads, c: Chain) {
    || (exists i :: Busy(t, i) && c == t.chains[i])
    || (c.Over? && forall i :: !Busy(t, i))
  }

  ghost predicate Represents(t: Threads, s: Sys) {
    OneToken(t) && s == With(t, s.chain) && Stands(t, s.chain)
  }

  /** What a step of the chain itself presupposes. */
  lemma OwnStep(s: Sys, step: Step)
    requires Enabled(s, step) && !IsOutside(step)
    ensures !s.chain.Over? && (step.Record? <==> s.chain.Recording?)
    ensures step.Record? ==> !Apply(s, step).chain.Over?
  {
  }

  /** Steps from outside neither depend on the chain nor move it. */
  lemma OutsideAnywhere(t: Threads, step: Step, c: Chain)
    requires IsOutside(step)
    ensures Enabled(With(t, c), step) <==> Enabled(With(t, Over), step)
    ensures Enabled(With(t, c), step) ==>
              Apply(With(t, c), step) == With(From(Apply(With(t, Over), step), t.chains), c)
  {
  }

  /** Thread `i` alone was active and moves to `c`. */
  lemma Moved(t: Threads, u: Threads, i: nat, c: Chain)
    requires OneToken(t) && Busy(t, i) && u.chains == t.chains[i := c]
    ensures OneToken(u) && Stands(u, c)
  {
    forall x | Busy(u, x) ensures x == i {
      assert x != i ==> Busy(t, x);
    }
    if c.Over? {
      assert forall x :: !Busy(u, x);
    } else {
      assert Busy(u, i);
    }
  }

  /** Thread `i` alone was active and hands over to a new thread. */
  lemma HandedOver(t: Threads, u: Threads, i: nat, j: nat, c: Chain)
    requires OneToken(t) && Busy(t, i) && j !in t.chains && !c.Over? && u.chains == t.chains[i := Over][j := c]
    ensures OneToken(u) && Stands(u, c)
  {
    forall x | Busy(u, x) ensures x == j {
      assert x != i && x != j ==> Busy(t, x);
    }
    assert Busy(u, j);
  }

  lemma Unmoved(t: Threads, u: Threads, c: Chain)
    requires OneToken(t) && Stands(t, c) && u.chains == t.chains
    ensures OneToken(u) && Stands(u, c)
  {
    assert forall x :: Busy(u, x) <==> Busy(t, x);
  }

  /** Every step of the threads is a step of the single chain, and keeps the token unique. */
  lemma Forward(t: Threads, s: Sys, step: ThreadStep) returns (st: Step)
    requires Represents(t, s) && CanTake(t, step)
    ensures Enabled(s, st) && Represents(Taken(t, step), Apply(s, st))
  {
    hide Enabled, Apply, Stands, OneToken;
    var u := Taken(t, step);
    match step
    case Run(i, x) =>
      st := x;
      OwnStep(With(t, t.chains[i]), x);
      Standing(t, s, i);
      Moved(t, u, i, Apply(s, st).chain);
    case Spawn(i, j) =>
      st := Record;
      CanRecord(t, i);
      OwnStep(With(t, t.chains[i]), Record);
      Standing(t, s, i);
      HandedOver(t, u, i, j, Apply(s, st).chain);
    case Outside(x) =>
      st := x;
      OutsideAnywhere(t, x, s.chain);
      Unmoved(t, u, s.chain);
  }

  /** The represented chain is that of any active thread. */
  lemma Standing(t: Threads, s: Sys, i: nat)
    requires Represents(t, s) && Busy(t, i)
    ensures s == With(t, t.chains[i])
  {
    assert !(forall x :: !Busy(t, x));
    var k :| Busy(t, k) && s.chain == t.chains[k];
    assert k == i;
  }

  /** And every step of the single chain is one of some thread. */
  lemma Backward(t: Threads, s: Sys, st: Step) returns (step: ThreadStep)
    requires Represents(t, s) && Enabled(s, st)
    ensures CanTake(t, step) && Represents(Taken(t, step), Apply(s, st))
  {
    hide Enabled, Apply, OneToken;
    if IsOutside(st) {
      step := Outside(st);
      OutsideAnywhere(t, st, s.chain);
      Unmoved(t, Taken(t, step), s.chain);
    } else {
      OwnStep(s, st);
      var i :| Busy(t, i) && s.chain == t.chains[i];
      if st.Record? {
        var j := Unused(t.chains.Keys);
        step := Spawn(i, j);
        HandedOver(t, Taken(t, step), i, j, Apply(s, st).chain);
      } else {
        step := Run(i, st);
        Moved(t, Taken(t, step), i, Apply(s, st).chain);
      }
    }
  }

  lemma CanRecord(t: Threads, i: nat)
    requires i in t.chains && t.chains[i].Recording?
    ensures Enabled(With(t, t.chains[i]), Record)
  {
  }

  lemma {:induction false} Unused(used: set<nat>) returns (j: nat)
    ensures forall k | k in used :: k < j
    decreases |used|
  {
    j := 0;
    if used != {} {
      var k :| k in used;
      var b := Unused(used - {k});
      j := if k >= b then k + 1 else b;
      assert forall x | x in used :: x == k || x in used - {k};
    }
  }

  ghost predicate Mirrored(c: seq<Threads>, d: seq<Sys>) {
    |c| == |d| && forall i | 0 <= i < |c| :: Represents(c[i], d[i])
  }

  /** Every run of the threads is, state by state, a run of the single chain. */
  lemma {:induction false} ForwardPath(c: seq<Threads>, s: Sys) returns (d: seq<Sys>)
    requires ThreadsPath(c) && Represents(c[0], s)
    ensures Path(d) && d[0] == s && Mirrored(c, d)
    decreases |c|
  {
    hide Represents, CanTake, Taken, Enabled, Apply;
    d := [s];
    if |c| > 1 {
      var b := c[..|c|-1];
      var e := ForwardPath(b, s);
      var t := b[|b|-1];
      assert ThreadsNext(t, c[|c|-1]);
      var step :| CanTake(t, step) && c[|c|-1] == Taken(t, step);
      var st := Forward(t, e[|e|-1], step);
      d := e + [Apply(e[|e|-1], st)];
      assert Next(e[|e|-1], Apply(e[|e|-1], st));
    }
  }

  /** And every run of the single chain is, state by state, one of threads. */
  lemma {:induction false} BackwardPath(d: seq<Sys>, t: Threads) returns (c: seq<Threads>)
    requires Path(d) && Represents(t, d[0])
    ensures ThreadsPath(c) && c[0] == t && Mirrored(c, d)
    decreases |d|
  {
    hide Represents, CanTake, Taken, Enabled, Apply;
    c := [t];
    if |d| > 1 {
      var b := d[..|d|-1];
      var e := BackwardPath(b, t);
      var s := b[|b|-1];
      assert Next(s, d[|d|-1]);
      var st :| Enabled(s, st) && d[|d|-1] == Apply(s, st);
      var step := Backward(e[|e|-1], s, st);
      c := e + [Taken(e[|e|-1], step)];
      assert ThreadsNext(e[|e|-1], Taken(e[|e|-1], step));
    }
  }

  lemma InitRepresents(policy: Policy)
    ensures Represents(ThreadsInit(policy), Init(policy))
  {
    assert Busy(ThreadsInit(policy), 0);
  }

  /** In every interleaving of Start's caller, the monitors, the Stops and the exits, at most one thread is active, the
      threads together are in a state the single chain can reach, and at most one process is alive. */
  lemma OneSupervisor(policy: Policy, t: Threads) returns (s: Sys)
    requires ThreadsReachable(policy, t)
    ensures OneToken(t) && Reachable(policy, s) && Represents(t, s) && |t.live| <= 1
  {
    hide Represents, ThreadsNext, Next;
    var c :| ThreadsPath(c) && c[0] == ThreadsInit(policy) && c[|c|-1] == t;
    InitRepresents(policy);
    var d := ForwardPath(c, Init(policy));
    s := d[|d|-1];
    assert Path(d) && d[0] == Init(policy) && d[|d|-1] == s;
    assert Represents(c[|c|-1], d[|d|-1]);
    Supervision(policy, s);
    SameProcesses(t, s);
  }

  lemma SameProcesses(t: Threads, s: Sys)
    requires Represents(t, s)
    ensures OneToken(t) && t.live == s.live
  {
  }

  /** Nothing the single chain can reach is out of reach of the threads. */
  lemma ChainIsThreads(policy: Policy, s: Sys) returns (t: Threads)
    requires Reachable(policy, s)
    ensures ThreadsReachable(policy, t) && Represents(t, s)
  {
    hide Represents, ThreadsNext, Next;
    var d :| Path(d) && d[0] == Init(policy) && d[|d|-1] == s;
    InitRepresents(policy);
    var c := BackwardPath(d, ThreadsInit(policy));
    t := c[|c|-1];
    assert ThreadsPath(c) && c[0] == ThreadsInit(policy) && c[|c|-1] == t;
    assert Represents(c[|c|-1], d[|d|-1]);
  }
}

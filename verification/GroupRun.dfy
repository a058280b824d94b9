/** Group-by-group launching with a barrier after each group: the loop shared by the program phases
    and the daemon start, where every group runs its members concurrently and waits for all of them. */
module GroupRun {
  import opened NameOrder

  /** One member of one group. */
  datatype Slot = Slot(group: nat, name: Name)

  datatype Status = Ready | Waiting | Succeeded | Failed | Cancelled

  /** `begun` are the slots whose worker was spawned, `returned` the results received so far. */
  datatype Run = Run(groups: seq<seq<Name>>, cursor: nat, status: Status, begun: set<Slot>, returned: map<Slot, bool>)

  datatype Step =
    | Cancel
    | BeginGroup
    | Return(slot: Slot, ok: bool)
    | Join
    | Finish

  function Start(groups: seq<seq<Name>>): Run {
    Run(groups, 0, Ready, {}, map[])
  }

  function SlotsOf(groups: seq<seq<Name>>, g: nat): (r: set<Slot>)
    requires g < |groups|
    ensures forall s :: s in r <==> s.group == g && s.name in groups[g]
  {
    set n | n in groups[g] :: Slot(g, n)
  }

  predicate Enabled(r: Run, step: Step) {
    match step
    case Cancel => r.status == Ready && r.cursor < |r.groups|
    case BeginGroup => r.status == Ready && r.cursor < |r.groups|
    case Return(slot, ok) => r.status == Waiting && slot in r.begun && slot !in r.returned
    case Join => r.status == Waiting && r.cursor < |r.groups| && SlotsOf(r.groups, r.cursor) <= r.returned.Keys
    case Finish => r.status == Ready && r.cursor == |r.groups|
  }

  /** An empty group begins and joins at once, which is the source's `continue`. */
  function Apply(r: Run, step: Step): Run
    requires Enabled(r, step)
  {
    match step
    case Cancel => r.(status := Cancelled)
    case BeginGroup => r.(status := Waiting, begun := r.begun + SlotsOf(r.groups, r.cursor))
    case Return(slot, ok) => r.(returned := r.returned[slot := ok])
    case Join =>
      if forall s | s in SlotsOf(r.groups, r.cursor) :: r.returned[s]
      then r.(status := Ready, cursor := r.cursor + 1)
      else r.(status := Failed)
    case Finish => r.(status := Succeeded)
  }

  predicate ReturnedOk(r: Run, s: Slot) {
    s in r.returned && r.returned[s]
  }

  /** Every slot of the groups before `g` has returned without error. */
  ghost predicate AllOkBefore(r: Run, g: int) {
    forall s: Slot | s.group < g && s.group < |r.groups| && s.name in r.groups[s.group] :: ReturnedOk(r, s)
  }

  predicate MemberFailed(r: Run, g: nat)
    requires g < |r.groups|
  {
    exists s | s in SlotsOf(r.groups, g) :: s in r.returned && !r.returned[s]
  }

  ghost predicate Inv(r: Run) {
    && r.cursor <= |r.groups|
    && (r.status == Waiting || r.status == Failed || r.status == Cancelled ==> r.cursor < |r.groups|)
    && (r.status == Succeeded ==> r.cursor == |r.groups|)
    && (r.status == Waiting ==> SlotsOf(r.groups, r.cursor) <= r.begun)
    && (r.status == Failed ==> SlotsOf(r.groups, r.cursor) <= r.returned.Keys && MemberFailed(r, r.cursor))
    && r.returned.Keys <= r.begun
    && (forall s | s in r.begun :: s.group < |r.groups| && s.name in r.groups[s.group])
    && (forall s | s in r.begun :: s.group < r.cursor || (s.group == r.cursor && (r.status == Waiting ||
              r.status == Failed)))
    && AllOkBefore(r, r.cursor)
  }

  lemma StartInv(groups: seq<seq<Name>>)
    ensures Inv(Start(groups))
  {
  }

  lemma StepInv(r: Run, step: Step)
    requires Inv(r) && Enabled(r, step)
    ensures Inv(Apply(r, step))
  {
  }

  /** The barrier, as an invariant: a worker of a group exists only when every member of every earlier
      group has returned nil; a failed member means no later group ever begins. */
  lemma Barrier(r: Run)
    requires Inv(r)
    ensures forall s | s in r.begun :: AllOkBefore(r, s.group)
    ensures forall s, t | s in r.returned && !r.returned[s] && t in r.begun :: t.group <= s.group
    ensures r.status == Succeeded ==> AllOkBefore(r, |r.groups|)
  {
  }

  /** A worker still out always has a waiting errgroup to report to. */
  lemma OutstandingIsAwaited(r: Run, s: Slot)
    requires Inv(r) && s in r.begun && s !in r.returned
    ensures r.status == Waiting && s.group == r.cursor
  {
  }

  /** An error is reported only when a member of the group at hand returned one. */
  lemma FailureHasCause(r: Run)
    requires Inv(r) && r.status == Failed
    ensures exists n | n in r.groups[r.cursor] :: Slot(r.cursor, n) in r.returned && !r.returned[Slot(r.cursor, n)]
  {
    var s :| s in SlotsOf(r.groups, r.cursor) && s in r.returned && !r.returned[s];
    assert s == Slot(r.cursor, s.name);
  }

  /** A loop that was cancelled had groups left, and has begun none of them. */
  lemma CancelledBetweenGroups(r: Run)
    requires Inv(r) && r.status == Cancelled
    ensures r.cursor < |r.groups| && forall s | s in r.begun :: s.group < r.cursor && ReturnedOk(r, s)
  {
    forall s | s in r.begun ensures s.group < r.cursor && ReturnedOk(r, s) {
      assert s.name in r.groups[s.group];
    }
  }

  ghost predicate Next(r: Run, t: Run) {
    exists step :: Enabled(r, step) && t == Apply(r, step)
  }

  /** A whole run of the loop: consecutive states linked by steps. */
  ghost predicate Behaviour(b: seq<Run>, groups: seq<seq<Name>>) {
    && b != [] && b[0] == Start(groups)
    && forall i, j | 0 <= i && i + 1 == j < |b| :: Next(b[i], b[j])
  }

  lemma {:induction false} BehaviourInv(b: seq<Run>, groups: seq<seq<Name>>, i: nat)
    requires Behaviour(b, groups) && i < |b|
    ensures Inv(b[i]) && b[i].groups == groups
  {
    if i > 0 {
      BehaviourInv(b, groups, i - 1);
      assert Next(b[i-1], b[i]);
      var step :| Enabled(b[i-1], step) && b[i] == Apply(b[i-1], step);
      StepInv(b[i-1], step);
    }
  }

  // ---- a run can succeed ----

  ghost predicate Reaches(r: Run, t: Run) {
    exists c: seq<Run> :: Links(c) && c[0] == r && c[|c|-1] == t
  }

  ghost predicate Links(c: seq<Run>) {
    c != [] && forall i, j | 0 <= i && i + 1 == j < |c| :: Next(c[i], c[j])
  }

  lemma Stay(r: Run)
    ensures Reaches(r, r)
  {
    assert Links([r]) && [r][0] == r;
  }

  lemma Take(o: Run, r: Run, step: Step) returns (t: Run)
    requires Reaches(o, r) && Enabled(r, step)
    ensures t == Apply(r, step) && Reaches(o, t)
  {
    hide Enabled, Apply;
    t := Apply(r, step);
    var c :| Links(c) && c[0] == o && c[|c|-1] == r;
    var d := c + [t];
    assert Next(r, t);
    assert Links(d) && d[0] == o && d[|d|-1] == t;
  }

  predicate NoErrors(r: Run) {
    forall s | s in r.returned :: r.returned[s]
  }

  /** The members still out return nil one after another. */
  lemma {:induction false} ReturnRest(o: Run, r: Run) returns (t: Run)
    requires Reaches(o, r) && Inv(r) && r.status == Waiting && NoErrors(r) && r.cursor < |r.groups|
    ensures Reaches(o, t) && Inv(t) && NoErrors(t)
    ensures t == r.(returned := t.returned) && SlotsOf(r.groups, r.cursor) <= t.returned.Keys
    decreases SlotsOf(r.groups, r.cursor) - r.returned.Keys
  {
    hide Reaches, Inv;
    var out := SlotsOf(r.groups, r.cursor) - r.returned.Keys;
    t := r;
    if out == {} {
      forall s | s in SlotsOf(r.groups, r.cursor) ensures s in r.returned.Keys {
        assert s !in out;
      }
    } else {
      var s :| s in out;
      AwaitedBegun(r);
      var u := Take(o, r, Return(s, true));
      StepInv(r, Return(s, true));
      t := ReturnRest(o, u);
    }
  }

  lemma AwaitedBegun(r: Run)
    requires Inv(r) && r.status == Waiting
    ensures r.cursor < |r.groups| && SlotsOf(r.groups, r.cursor) <= r.begun
  {
  }

  lemma {:induction false} FinishRest(o: Run, r: Run) returns (t: Run)
    requires Reaches(o, r) && Inv(r) && NoErrors(r) && (r.status == Ready || r.status == Waiting)
    ensures Reaches(o, t) && t.status == Succeeded && NoErrors(t)
    decreases |r.groups| - r.cursor, if r.status == Ready then 1 else 0
  {
    hide Reaches;
    if r.status == Waiting {
      var u := ReturnRest(o, r);
      StepInv(u, Join);
      u := Take(o, u, Join);
      t := FinishRest(o, u);
    } else if r.cursor < |r.groups| {
      StepInv(r, BeginGroup);
      var u := Take(o, r, BeginGroup);
      t := FinishRest(o, u);
    } else {
      t := Take(o, r, Finish);
    }
  }

  /** As long as no member has failed and the context is live, the loop can still run to success. */
  lemma CanSucceed(r: Run) returns (t: Run)
    requires Inv(r) && NoErrors(r) && (r.status == Ready || r.status == Waiting)
    ensures Reaches(r, t) && t.status == Succeeded
  {
    Stay(r);
    t := FinishRest(r, r);
  }

  /** It can be cancelled at every barrier that has a group behind it. */
  lemma CanBeCancelled(r: Run) returns (t: Run)
    requires r.status == Ready && r.cursor < |r.groups|
    ensures Reaches(r, t) && t.status == Cancelled && t.begun == r.begun
  {
    Stay(r);
    t := Take(r, r, Cancel);
  }
}

/** What a correct dependency schedule is, independent of how it is computed. */
module Layering {
  import opened NameOrder

  /** `d` is a declared dependency of `n`. */
  predicate DependsOn(m: Configs, n: Name, d: Name) {
    n in m && d in m[n].dependsOn
  }

  /** `n` depends on some member of `s`. */
  ghost predicate DependsInto(m: Configs, n: Name, s: set<Name>) {
    exists d :: d in s && DependsOn(m, n, d)
  }

  function Members(group: seq<Name>): set<Name> {
    set x | x in group
  }

  lemma MembersSnoc(s: seq<Name>, k: nat)
    requires k < |s|
    ensures Members(s[..k+1]) == Members(s[..k]) + {s[k]}
  {
  }

  /** Names that can only wait for each other. */
  ghost predicate StuckSet(m: Configs, s: set<Name>) {
    s <= m.Keys && forall n | n in s :: DependsInto(m, n, s)
  }

  predicate SelfDependent(m: Configs, n: Name) {
    DependsOn(m, n, n)
  }

  predicate Dangling(m: Configs, n: Name, d: Name) {
    DependsOn(m, n, d) && d !in m
  }

  predicate CrossesPhase(m: Configs, n: Name, d: Name) {
    DependsOn(m, n, d) && d in m && m[n].phase == PHASE_EARLY && m[d].phase == PHASE_POST
  }

  ghost predicate WellFormed(m: Configs) {
    forall n, d | DependsOn(m, n, d) :: !SelfDependent(m, n) && !Dangling(m, n, d) && !CrossesPhase(m, n, d)
  }

  /** A dependency chain: every name depends on the one before it. */
  ghost predicate Chain(m: Configs, c: seq<Name>) {
    && c != []
    && (forall i | 0 <= i < |c| :: c[i] in m)
    && (forall i, j | 0 <= i && i + 1 == j < |c| :: DependsOn(m, c[j], c[i]))
  }

  ghost predicate ChainTo(m: Configs, n: Name, c: seq<Name>) {
    Chain(m, c) && c[|c|-1] == n
  }

  ghost predicate Cycle(m: Configs, c: seq<Name>) {
    Chain(m, c) && |c| >= 2 && c[0] == c[|c|-1]
  }

  /** Every name sits in some group, and after all of its dependencies. */
  ghost predicate Schedule(m: Configs, groups: seq<seq<Name>>) {
    && (forall n | n in m :: exists i | 0 <= i < |groups| :: n in groups[i])
    && (forall i, n | 0 <= i < |groups| && n in groups[i] :: n in m)
    && (forall i, k, n | 0 <= i < |groups| && 0 <= k < |groups| && n in groups[i] && n in groups[k] :: i == k)
    && (forall i, k, n, d | 0 <= i < |groups| && 0 <= k < |groups| && n in groups[i] && d in groups[k]
         && DependsOn(m, n, d) :: k < i)
  }

  /** The schedule the resolver must return: non-empty ascending groups in which every name
      outside the first group has a dependency in the group just before its own. */
  ghost predicate IsLayering(m: Configs, groups: seq<seq<Name>>) {
    && Schedule(m, groups)
    && (forall i | 0 <= i < |groups| :: groups[i] != [] && Ascending(m, groups[i]))
    && (forall i, k, n | 0 <= i && i + 1 == k < |groups| && n in groups[k] :: DependsInto(m, n, Members(groups[i])))
  }

  /** Group indices grow along every chain of any schedule. */
  lemma {:induction false} ChainClimbs(m: Configs, groups: seq<seq<Name>>, c: seq<Name>, i: nat, k: nat)
    requires Schedule(m, groups) && Chain(m, c)
    requires i < |groups| && k < |groups| && c[0] in groups[i] && c[|c|-1] in groups[k]
    ensures i + |c| - 1 <= k
  {
    if |c| > 1 {
      var b := c[..|c|-1];
      var j: nat :| j < |groups| && b[|b|-1] in groups[j];
      ChainClimbs(m, groups, b, i, j);
      assert DependsOn(m, c[|c|-1], b[|b|-1]);
    }
  }

  /** A schedule rules out cycles. */
  lemma ScheduleIsAcyclic(m: Configs, groups: seq<seq<Name>>, c: seq<Name>)
    requires Schedule(m, groups)
    ensures !Cycle(m, c)
  {
    if Chain(m, c) && |c| >= 2 && c[0] == c[|c|-1] {
      var i: nat :| i < |groups| && c[0] in groups[i];
      ChainClimbs(m, groups, c, i, i);
    }
  }

  lemma Extend(m: Configs, b: seq<Name>, n: Name) returns (c: seq<Name>)
    requires Chain(m, b) && DependsOn(m, n, b[|b|-1])
    ensures c == b + [n] && Chain(m, c)
  {
    c := b + [n];
  }

  lemma Prepend(m: Configs, d: Name, b: seq<Name>) returns (c: seq<Name>)
    requires Chain(m, b) && d in m && DependsOn(m, b[0], d)
    ensures c == [d] + b && Chain(m, c)
  {
    c := [d] + b;
  }

  /** A name in group i ends a chain of i + 1 names. */
  lemma {:induction false} DeepChain(m: Configs, groups: seq<seq<Name>>, n: Name, i: nat) returns (c: seq<Name>)
    requires IsLayering(m, groups) && i < |groups| && n in groups[i]
    ensures ChainTo(m, n, c) && |c| == i + 1
    decreases i
  {
    if i == 0 {
      c := [n];
    } else {
      assert DependsInto(m, n, Members(groups[i-1]));
      var d :| d in Members(groups[i-1]) && DependsOn(m, n, d);
      var b := DeepChain(m, groups, d, i - 1);
      c := Extend(m, b, n);
    }
  }

  lemma ChainBounded(m: Configs, groups: seq<seq<Name>>, n: Name, c: seq<Name>, k: nat)
    requires Schedule(m, groups) && ChainTo(m, n, c) && k < |groups| && n in groups[k]
    ensures |c| <= k + 1
  {
    var j: nat :| j < |groups| && c[0] in groups[j];
    ChainClimbs(m, groups, c, j, k);
  }

  /** The group index is the length of the longest chain below the name: a definition that
      knows nothing of in-degrees or rounds. */
  lemma GroupIsLongestChain(m: Configs, groups: seq<seq<Name>>, n: Name, i: nat)
    requires IsLayering(m, groups) && i < |groups|
    ensures n in groups[i] <==>
              && (exists c :: ChainTo(m, n, c) && |c| == i + 1)
              && (forall c :: ChainTo(m, n, c) ==> |c| <= i + 1)
  {
    if n in m {
      var k: nat :| k < |groups| && n in groups[k];
      var deep := DeepChain(m, groups, n, k);
      forall c | ChainTo(m, n, c) ensures |c| <= k + 1 {
        ChainBounded(m, groups, n, c, k);
      }
    }
  }

  /** No schedule whatever places a name earlier, or uses fewer groups. */
  lemma LayeringIsMinimal(m: Configs, groups: seq<seq<Name>>, other: seq<seq<Name>>)
    requires IsLayering(m, groups) && Schedule(m, other)
    ensures forall n, i, k | 0 <= i < |groups| && 0 <= k < |other| && n in groups[i] && n in other[k] :: i <= k
    ensures |groups| <= |other|
  {
    forall n, i, k | 0 <= i < |groups| && 0 <= k < |other| && n in groups[i] && n in other[k]
      ensures i <= k
    {
      var c := DeepChain(m, groups, n, i);
      var j: nat :| j < |other| && c[0] in other[j];
      ChainClimbs(m, other, c, j, k);
    }
    if groups != [] {
      var last := |groups| - 1;
      assert groups[last][0] in groups[last];
      var k: nat :| k < |other| && groups[last][0] in other[k];
    }
  }

  /** A configuration has one layering. Two runs of the resolver, with whatever map iteration
      orders, therefore return the same list of lists. */
  lemma LayeringUnique(m: Configs, g: seq<seq<Name>>, h: seq<seq<Name>>)
    requires IsLayering(m, g) && IsLayering(m, h)
    ensures g == h
  {
    LayeringIsMinimal(m, g, h);
    LayeringIsMinimal(m, h, g);
    forall i | 0 <= i < |g| ensures g[i] == h[i] {
      forall x ensures x in g[i] <==> x in h[i] {
      }
      AscendingUnique(m, g[i], h[i]);
    }
  }

  /** Pigeonhole: a sequence longer than the set it is drawn from repeats an element. */
  lemma {:induction false} Repeats(c: seq<Name>, s: set<Name>) returns (i: nat, j: nat)
    requires |c| > |s| && forall k | 0 <= k < |c| :: c[k] in s
    ensures i < j < |c| && c[i] == c[j]
  {
    if k :| 1 <= k < |c| && c[k] == c[0] {
      return 0, k;
    }
    i, j := Repeats(c[1..], s - {c[0]});
    i, j := i + 1, j + 1;
  }

  /** Walks backwards along dependencies that stay inside `stuck`. */
  lemma {:induction false} BackwardWalk(m: Configs, stuck: set<Name>, length: nat) returns (c: seq<Name>)
    requires stuck != {} && length > 0 && StuckSet(m, stuck)
    ensures |c| == length && Chain(m, c) && forall k | 0 <= k < |c| :: c[k] in stuck
  {
    if length == 1 {
      var n :| n in stuck;
      c := [n];
    } else {
      var b := BackwardWalk(m, stuck, length - 1);
      var d :| d in stuck && DependsOn(m, b[0], d);
      c := Prepend(m, d, b);
    }
  }

  /** A non-empty set whose members all depend on a member holds a cycle. */
  lemma StuckSetHasCycle(m: Configs, stuck: set<Name>) returns (c: seq<Name>)
    requires stuck != {} && StuckSet(m, stuck)
    ensures Cycle(m, c)
  {
    var w := BackwardWalk(m, stuck, |stuck| + 1);
    var i, j := Repeats(w, stuck);
    c := w[i..j+1];
  }

  /** Every name outside `remaining` is in exactly one group. */
  ghost predicate Placed(m: Configs, groups: seq<seq<Name>>, remaining: set<Name>) {
    && remaining <= m.Keys
    && (forall n | n in m && n !in remaining :: exists i | 0 <= i < |groups| :: n in groups[i])
    && (forall i, n | 0 <= i < |groups| && n in groups[i] :: n in m && n !in remaining)
    && (forall i, k, n | 0 <= i < |groups| && 0 <= k < |groups| && n in groups[i] && n in groups[k] :: i == k)
  }

  /** Dependencies of placed names are placed earlier. */
  ghost predicate Ordered(m: Configs, groups: seq<seq<Name>>, remaining: set<Name>) {
    && (forall i, k, n, d | 0 <= i < |groups| && 0 <= k < |groups| && n in groups[i] && d in groups[k]
         && DependsOn(m, n, d) :: k < i)
    && (forall i, n, d | 0 <= i < |groups| && n in groups[i] && DependsOn(m, n, d) :: d !in remaining)
  }

  /** Nothing could have been placed earlier: every remaining name waits for a remaining one or for the group
      placed last. */
  ghost predicate Tight(m: Configs, groups: seq<seq<Name>>, remaining: set<Name>) {
    && (forall i, k, n | 0 <= i && i + 1 == k < |groups| && n in groups[k] :: DependsInto(m, n, Members(groups[i])))
    && (groups != [] ==> forall n | n in remaining :: DependsInto(m, n, remaining + Members(groups[|groups|-1])))
  }

  /** The loop invariant of the layered sort: `groups` is final, `remaining` is still to be placed. */
  ghost predicate PartialLayering(m: Configs, groups: seq<seq<Name>>, remaining: set<Name>) {
    && Placed(m, groups, remaining) && Ordered(m, groups, remaining) && Tight(m, groups, remaining)
    && (forall i | 0 <= i < |groups| :: groups[i] != [] && Ascending(m, groups[i]))
  }

  /** The names that can be placed next. */
  ghost predicate IsReady(m: Configs, ready: seq<Name>, remaining: set<Name>) {
    forall n :: n in ready <==> n in remaining && !DependsInto(m, n, remaining)
  }

  lemma DependsIntoUnion(m: Configs, n: Name, s: set<Name>, t: set<Name>)
    requires DependsInto(m, n, s + t) && !DependsInto(m, n, s)
    ensures DependsInto(m, n, t)
  {
  }

  lemma DependsIntoMonotone(m: Configs, n: Name, s: set<Name>, t: set<Name>)
    requires DependsInto(m, n, s) && s <= t
    ensures DependsInto(m, n, t)
  {
  }

  lemma PlaceReadyTight(m: Configs, groups: seq<seq<Name>>, remaining: set<Name>, ready: seq<Name>)
    requires Tight(m, groups, remaining) && IsReady(m, ready, remaining)
    ensures Tight(m, groups + [ready], remaining - Members(ready))
  {
    hide DependsInto;
    var g, r := groups + [ready], remaining - Members(ready);
    forall i, k, n | 0 <= i && i + 1 == k < |g| && n in g[k] ensures DependsInto(m, n, Members(g[i])) {
      assert g[i] == groups[i];
      if k == |groups| {
        assert n in remaining;
        DependsIntoUnion(m, n, remaining, Members(groups[i]));
      } else {
        assert n in groups[k];
      }
    }
    forall n | n in r ensures DependsInto(m, n, r + Members(ready)) {
      DependsIntoMonotone(m, n, remaining, r + Members(ready));
    }
    assert g[|g|-1] == ready;
  }

  lemma PlaceReadyOrdered(m: Configs, groups: seq<seq<Name>>, remaining: set<Name>, ready: seq<Name>)
    requires Placed(m, groups, remaining) && Ordered(m, groups, remaining) && IsReady(m, ready, remaining)
    ensures Ordered(m, groups + [ready], remaining - Members(ready))
  {
    var g, r := groups + [ready], remaining - Members(ready);
    forall i, k, n, d | 0 <= i < |g| && 0 <= k < |g| && n in g[i] && d in g[k] && DependsOn(m, n, d)
      ensures k < i
    {
      assert i < |groups| ==> n in groups[i];
      assert i == |groups| ==> !DependsInto(m, n, remaining);
    }
  }

  lemma PlaceReadyPlaced(m: Configs, groups: seq<seq<Name>>, remaining: set<Name>, ready: seq<Name>)
    requires Placed(m, groups, remaining) && IsReady(m, ready, remaining)
    ensures Placed(m, groups + [ready], remaining - Members(ready))
  {
    hide DependsInto;
    var g, r := groups + [ready], remaining - Members(ready);
    forall n | n in m && n !in r ensures exists i | 0 <= i < |g| :: n in g[i] {
      if n in remaining {
        assert n in g[|groups|];
      } else {
        var i: nat :| i < |groups| && n in groups[i];
        assert n in g[i];
      }
    }
  }

  lemma PlaceReady(m: Configs, groups: seq<seq<Name>>, remaining: set<Name>, ready: seq<Name>)
    requires PartialLayering(m, groups, remaining)
    requires ready != [] && Ascending(m, ready) && IsReady(m, ready, remaining)
    ensures PartialLayering(m, groups + [ready], remaining - Members(ready))
  {
    hide Ascending, Placed, Ordered, Tight, IsReady;
    PlaceReadyPlaced(m, groups, remaining, ready);
    PlaceReadyOrdered(m, groups, remaining, ready);
    PlaceReadyTight(m, groups, remaining, ready);
  }

  /** No name placed so far belongs to any stuck set. */
  lemma {:induction false} PlacedIsNotStuck(m: Configs, groups: seq<seq<Name>>, remaining: set<Name>, t: set<Name>,
          n: Name, i: nat)
    requires PartialLayering(m, groups, remaining) && StuckSet(m, t)
    requires i < |groups| && n in groups[i]
    ensures n !in t
    decreases i
  {
    if n in t && DependsInto(m, n, t) {
      var d :| d in t && DependsOn(m, n, d);
      assert d !in remaining;
      var k: nat :| k < |groups| && d in groups[k];
      PlacedIsNotStuck(m, groups, remaining, t, d, k);
    }
  }

  lemma RemainingIsGreatestStuckSet(m: Configs, groups: seq<seq<Name>>, remaining: set<Name>)
    requires PartialLayering(m, groups, remaining)
    ensures forall t | StuckSet(m, t) :: t <= remaining
  {
    forall t, n | StuckSet(m, t) && n in t ensures n in remaining {
      if n !in remaining {
        var i: nat :| i < |groups| && n in groups[i];
        PlacedIsNotStuck(m, groups, remaining, t, n, i);
      }
    }
  }

  lemma NothingRemains(m: Configs, groups: seq<seq<Name>>)
    requires PartialLayering(m, groups, {})
    ensures IsLayering(m, groups)
  {
  }
}

/** Ordered start and stop of daemons, and the effect of configuration reloads on the daemon table. */
module Daemons {
  import opened NameOrder
  import G = GroupRun

  datatype DaemonConfig = DaemonConfig(name: Name, exec: string, order: int, enabled: bool)

  datatype DaemonState = Stopped | Starting | Running | Failed | Disabled

  datatype Entry = Entry(name: Name, order: int)

  datatype OrderGroup = OrderGroup(order: int, names: seq<Name>)

  // ---- grouping ----

  /** The enabled definitions, in file order. */
  function Entries(configs: seq<DaemonConfig>): seq<Entry> {
    if configs == [] then []
    else
      var c := configs[|configs|-1];
      Entries(configs[..|configs|-1]) + (if c.enabled then [Entry(c.name, c.order)] else [])
  }

  ghost predicate Nondecreasing(s: seq<Entry>) {
    forall i, j | 0 <= i < j < |s| :: s[i].order <= s[j].order
  }

  function InsertEntry(e: Entry, s: seq<Entry>): (r: seq<Entry>)
    ensures multiset(r) == multiset{e} + multiset(s)
  {
    if s == [] then [e]
    else if e.order <= s[0].order then
      assert s == [s[0]] + s[1..];
      [e] + s
    else
      assert s == [s[0]] + s[1..];
      [s[0]] + InsertEntry(e, s[1..])
  }

  lemma {:induction false} InsertEntrySorted(e: Entry, s: seq<Entry>)
    requires Nondecreasing(s)
    ensures Nondecreasing(InsertEntry(e, s))
  {
    if s != [] && e.order > s[0].order {
      InsertEntrySorted(e, s[1..]);
      var t := InsertEntry(e, s[1..]);
      forall j | 0 <= j < |t| ensures s[0].order <= t[j].order {
        assert t[j] in multiset(t);
      }
    }
  }

  function SortEntries(s: seq<Entry>): (r: seq<Entry>)
    ensures multiset(r) == multiset(s)
  {
    if s == [] then [] else
      assert s == [s[0]] + s[1..];
      InsertEntry(s[0], SortEntries(s[1..]))
  }

  lemma {:induction false} SortEntriesSorted(s: seq<Entry>)
    ensures Nondecreasing(SortEntries(s))
  {
    if s != [] {
      SortEntriesSorted(s[1..]);
      InsertEntrySorted(s[0], SortEntries(s[1..]));
    }
  }

  function Tagged(order: int, names: seq<Name>): seq<Entry> {
    if names == [] then [] else Tagged(order, names[..|names|-1]) + [Entry(names[|names|-1], order)]
  }

  /** The entries the groups stand for. */
  function Flatten(groups: seq<OrderGroup>): seq<Entry> {
    if groups == [] then []
    else Flatten(groups[..|groups|-1]) + Tagged(groups[|groups|-1].order, groups[|groups|-1].names)
  }

  /** Strictly ascending non-empty groups holding exactly the enabled daemons, each under its own order. */
  ghost predicate IsGrouping(configs: seq<DaemonConfig>, groups: seq<OrderGroup>) {
    && (forall i, j | 0 <= i < j < |groups| :: groups[i].order < groups[j].order)
    && (forall i | 0 <= i < |groups| :: groups[i].names != [])
    && multiset(Flatten(groups)) == multiset(Entries(configs))
  }

  lemma {:induction false} TaggedMember(order: int, names: seq<Name>, e: Entry)
    ensures e in Tagged(order, names) <==> e.order == order && e.name in names
  {
    if names != [] {
      var b, n := names[..|names|-1], names[|names|-1];
      TaggedMember(order, b, e);
      assert names == b + [n];
    }
  }

  lemma {:induction false} FlattenMember(groups: seq<OrderGroup>, e: Entry)
    ensures e in Flatten(groups) <==> exists i | 0 <= i < |groups| ::
              groups[i].order == e.order && e.name in groups[i].names
  {
    if groups != [] {
      var b, g := groups[..|groups|-1], groups[|groups|-1];
      FlattenMember(b, e);
      TaggedMember(g.order, g.names, e);
      assert groups == b + [g];
      if e in Flatten(b) {
        var i :| 0 <= i < |b| && b[i].order == e.order && e.name in b[i].names;
        assert groups[i] == b[i];
      }
    }
  }

  lemma {:induction false} EntryMember(configs: seq<DaemonConfig>, e: Entry)
    ensures e in Entries(configs) <==> exists c | c in configs :: c.enabled && c.name == e.name && c.order == e.order
  {
    if configs != [] {
      var b, c := configs[..|configs|-1], configs[|configs|-1];
      EntryMember(b, e);
      assert configs == b + [c];
      assert c in configs;
    }
  }

  /** An enabled daemon sits in the group of its order and, names being unique, in no other: two enabled daemons
      share a group exactly when their orders are equal. */
  lemma SharedGroupIffSameOrder(configs: seq<DaemonConfig>, groups: seq<OrderGroup>, a: DaemonConfig, b: DaemonConfig)
    requires IsGrouping(configs, groups)
    requires forall i, j | 0 <= i < j < |configs| :: configs[i].name != configs[j].name
    requires a in configs && a.enabled && b in configs && b.enabled
    ensures (exists i | 0 <= i < |groups| ::
              a.name in groups[i].names && b.name in groups[i].names) <==> a.order == b.order
  {
    var ea, eb := Entry(a.name, a.order), Entry(b.name, b.order);
    GroupedUnder(configs, groups, a);
    GroupedUnder(configs, groups, b);
  }

  lemma GroupedUnder(configs: seq<DaemonConfig>, groups: seq<OrderGroup>, a: DaemonConfig)
    requires IsGrouping(configs, groups)
    requires forall i, j | 0 <= i < j < |configs| :: configs[i].name != configs[j].name
    requires a in configs && a.enabled
    ensures exists i | 0 <= i < |groups| :: a.name in groups[i].names
    ensures forall i | 0 <= i < |groups| && a.name in groups[i].names :: groups[i].order == a.order
  {
    var e := Entry(a.name, a.order);
    EntryMember(configs, e);
    assert e in multiset(Entries(configs));
    FlattenMember(groups, e);
    forall i | 0 <= i < |groups| && a.name in groups[i].names ensures groups[i].order == a.order {
      var x := Entry(a.name, groups[i].order);
      FlattenMember(groups, x);
      assert x in multiset(Flatten(groups));
      EntryMember(configs, x);
    }
  }

  lemma FlattenExtendLast(groups: seq<OrderGroup>, e: Entry)
    requires groups != [] && groups[|groups|-1].order == e.order
    ensures var g := groups[|groups|-1];
            Flatten(groups[|groups|-1 := OrderGroup(g.order, g.names + [e.name])]) == Flatten(groups) + [e]
  {
  }

  lemma FlattenNewGroup(groups: seq<OrderGroup>, e: Entry)
    ensures Flatten(groups + [OrderGroup(e.order, [])]) == Flatten(groups)
  {
  }

  /** The groups stand for `done`, the sorted entries taken so far. */
  ghost predicate Grouped(groups: seq<OrderGroup>, done: seq<Entry>) {
    && (forall j, k | 0 <= j < k < |groups| :: groups[j].order < groups[k].order)
    && (forall j | 0 <= j < |groups| :: groups[j].names != [])
    && Flatten(groups) == done
    && (done != [] ==> groups != [] && groups[|groups|-1].order == done[|done|-1].order)
  }

  /** One turn of the grouping loop. */
  method Place(groups0: seq<OrderGroup>, e: Entry, ghost done: seq<Entry>) returns (groups: seq<OrderGroup>)
    requires Grouped(groups0, done) && (done != [] ==> done[|done|-1].order <= e.order) && (done == [] ==>
              groups0 == [])
    ensures Grouped(groups, done + [e])
  {
    hide Flatten;
    groups := groups0;
    if |groups| == 0 || groups[|groups|-1].order != e.order {
      FlattenNewGroup(groups, e);
      assert groups != [] ==> groups[|groups|-1].order < e.order;
      groups := groups + [OrderGroup(e.order, [])];
    }
    var last := groups[|groups|-1];
    FlattenExtendLast(groups, e);
    groups := groups[|groups|-1 := OrderGroup(last.order, last.names + [e.name])];
  }

  /** Groups the enabled daemons by order, appending to the last group while the order stays the same. */
  method GroupByOrder(configs: seq<DaemonConfig>) returns (groups: seq<OrderGroup>)
    ensures IsGrouping(configs, groups)
  {
    var entries := SortEntries(Entries(configs));
    SortEntriesSorted(Entries(configs));
    groups := [];
    var i := 0;
    while i < |entries|
      invariant i <= |entries|
      invariant Grouped(groups, entries[..i]) && (i == 0 ==> groups == [])
    {
      assert entries[..i+1] == entries[..i] + [entries[i]];
      groups := Place(groups, entries[i], entries[..i]);
      i := i + 1;
    }
    assert entries[..i] == entries;
  }

  // ---- start barrier ----

  function GroupNames(groups: seq<OrderGroup>): (r: seq<seq<Name>>)
    ensures |r| == |groups| && forall i | 0 <= i < |r| :: r[i] == groups[i].names
  {
    seq(|groups|, i requires 0 <= i < |groups| => groups[i].names)
  }

  /** In every interleaving of StartAll, a daemon's start begins only when every enabled daemon of a lower order
      has been started without error, and if StartAll succeeds all enabled daemons have. */
  lemma StartAllInOrder(configs: seq<DaemonConfig>, groups: seq<OrderGroup>, b: seq<G.Run>, i: nat, slot: G.Slot,
          c: DaemonConfig)
    requires IsGrouping(configs, groups) && G.Behaviour(b, GroupNames(groups)) && i < |b|
    requires c in configs && c.enabled
    requires (slot in b[i].begun && slot.group < |groups| && c.order < groups[slot.group].order) ||
              b[i].status == G.Succeeded
    ensures exists s :: G.ReturnedOk(b[i], s) && s.name == c.name && s.group < |groups| &&
              groups[s.group].order == c.order
  {
    G.BehaviourInv(b, GroupNames(groups), i);
    G.Barrier(b[i]);
    var e := Entry(c.name, c.order);
    EntryMember(configs, e);
    assert e in multiset(Entries(configs));
    FlattenMember(groups, e);
    var k: nat :| k < |groups| && groups[k].order == c.order && c.name in groups[k].names;
    assert G.ReturnedOk(b[i], G.Slot(k, c.name));
  }
}

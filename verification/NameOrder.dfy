/** Byte-wise string order, the three-key program order, and sorted name lists. */
module NameOrder {

  const PHASE_EARLY := "early"
  const PHASE_POST := "post"

  /** A program name. */
  datatype Name = Name(text: string)

  /** The fields of a program definition that scheduling and launching read. */
  datatype Config = Config(
    name: Name,
    phase: string,
    priority: int,
    enabled: bool,
    dependsOn: seq<Name>,
    startDelay: int,
    healthCheck: string)

  type Configs = map<Name, Config>

  /** Go's `<` on strings: lexicographic. */
  predicate StringLess(a: string, b: string) {
    if b == [] then false
    else if a == [] then true
    else if a[0] != b[0] then a[0] < b[0]
    else StringLess(a[1..], b[1..])
  }

  /** The comparator shared by the ready list and the loader: early first, then priority, then name. */
  predicate Before(m: Configs, a: Name, b: Name)
    requires a in m && b in m
  {
    var ca, cb := m[a], m[b];
    if ca.phase != cb.phase && ca.phase == PHASE_EARLY then true
    else if ca.phase != cb.phase && cb.phase == PHASE_EARLY then false
    else if ca.priority != cb.priority then ca.priority < cb.priority
    else StringLess(a.text, b.text)
  }

  lemma {:induction false} StringLessTransitive(a: string, b: string, c: string)
    requires StringLess(a, b) && StringLess(b, c)
    ensures StringLess(a, c)
  {
    if a != [] && a[0] == b[0] == c[0] {
      StringLessTransitive(a[1..], b[1..], c[1..]);
    }
  }

  lemma {:induction false} StringLessTotal(a: string, b: string)
    ensures StringLess(a, b) || StringLess(b, a) || a == b
    ensures !(StringLess(a, b) && StringLess(b, a))
    ensures a == b ==> !StringLess(a, b)
  {
    if a != [] && b != [] && a[0] == b[0] {
      StringLessTotal(a[1..], b[1..]);
      assert a == [a[0]] + a[1..] && b == [b[0]] + b[1..];
    }
  }

  /** The comparator is a strict total order on the names of any configuration map,
      whatever strings the phases are. */
  lemma BeforeStrictTotalOrder(m: Configs)
    ensures forall a | a in m :: !Before(m, a, a)
    ensures forall a, b | a in m && b in m && a != b :: Before(m, a, b) <==> !Before(m, b, a)
    ensures forall a, b, c | a in m && b in m && c in m && Before(m, a, b) && Before(m, b, c) :: Before(m, a, c)
  {
    forall a, b | a in m && b in m
      ensures a == b ==> !Before(m, a, b)
      ensures a != b ==> (Before(m, a, b) <==> !Before(m, b, a))
    {
      StringLessTotal(a.text, b.text);
    }
    forall a, b, c | a in m && b in m && c in m && Before(m, a, b) && Before(m, b, c)
      ensures Before(m, a, c)
    {
      if StringLess(a.text, b.text) && StringLess(b.text, c.text) {
        StringLessTransitive(a.text, b.text, c.text);
      }
    }
  }

  /** Lexicographic order said outright: `a` is a proper prefix of `b`, or smaller at the first difference. */
  ghost predicate NameBelow(a: string, b: string) {
    exists k: nat :: k <= |a| && k < |b| && a[..k] == b[..k] && (k == |a| || a[k] < b[k])
  }

  lemma NameBelowHead(a: string, b: string)
    requires a != [] && b != []
    ensures NameBelow(a, b) ==> a[0] < b[0] || (a[0] == b[0] && NameBelow(a[1..], b[1..]))
  {
    if k: nat :| k <= |a| && k < |b| && a[..k] == b[..k] && (k == |a| || a[k] < b[k]) {
      if k > 0 {
        assert a[0] == a[..k][0] == b[..k][0];
        assert a[1..][..k-1] == a[..k][1..] == b[1..][..k-1];
      }
    }
  }

  lemma NameBelowCons(a: string, b: string)
    requires a != [] && b != []
    ensures a[0] < b[0] || (a[0] == b[0] && NameBelow(a[1..], b[1..])) ==> NameBelow(a, b)
  {
    if a[0] < b[0] {
      assert a[..0] == b[..0];
    } else if a[0] == b[0] {
      if k: nat :| k <= |a[1..]| && k < |b[1..]| && a[1..][..k] == b[1..][..k]
                   && (k == |a[1..]| || a[1..][k] < b[1..][k]) {
        assert a[..k+1] == [a[0]] + a[1..][..k] == [b[0]] + b[1..][..k] == b[..k+1];
      }
    }
  }

  lemma {:induction false} StringLessMeaning(a: string, b: string)
    ensures StringLess(a, b) <==> NameBelow(a, b)
  {
    if a != [] && b != [] {
      hide NameBelow;
      NameBelowHead(a, b);
      NameBelowCons(a, b);
      StringLessMeaning(a[1..], b[1..]);
    } else {
      assert a[..0] == b[..0];
    }
  }

  /** Early before everything else, then the lower priority value, then the smaller name. */
  ghost predicate Precedes(m: Configs, a: Name, b: Name)
    requires a in m && b in m
  {
    var ea, eb := m[a].phase == PHASE_EARLY, m[b].phase == PHASE_EARLY;
    (ea && !eb) || (ea == eb && (m[a].priority < m[b].priority
      || (m[a].priority == m[b].priority && NameBelow(a.text, b.text))))
  }

  /** Which way the comparator sorts. */
  lemma BeforeMeaning(m: Configs, a: Name, b: Name)
    requires a in m && b in m
    ensures Before(m, a, b) <==> Precedes(m, a, b)
  {
    StringLessMeaning(a.text, b.text);
  }

  /** The listed programs stand in the documented order. */
  ghost predicate InOrder(m: Configs, s: seq<Name>) {
    forall i, j | 0 <= i < j < |s| ::
      && s[i] in m && s[j] in m
      && (m[s[j]].phase == PHASE_EARLY ==> m[s[i]].phase == PHASE_EARLY)
      && (m[s[i]].phase == m[s[j]].phase ==> m[s[i]].priority <= m[s[j]].priority)
      && (m[s[i]].phase == m[s[j]].phase && m[s[i]].priority == m[s[j]].priority ==> NameBelow(s[i].text, s[j].text))
  }

  lemma AscendingInOrder(m: Configs, s: seq<Name>)
    requires Ascending(m, s)
    ensures InOrder(m, s)
  {
    hide NameBelow, Before;
    forall i, j | 0 <= i < j < |s| ensures Precedes(m, s[i], s[j]) {
      BeforeMeaning(m, s[i], s[j]);
    }
  }

  /** Strictly increasing in the comparator, hence without repetition. */
  ghost predicate Ascending(m: Configs, s: seq<Name>) {
    && (forall i | 0 <= i < |s| :: s[i] in m)
    && (forall i, j | 0 <= i < j < |s| :: Before(m, s[i], s[j]))
  }

  function Insert(m: Configs, n: Name, s: seq<Name>): (r: seq<Name>)
    requires n in m && forall x | x in s :: x in m
    ensures forall x :: x in r <==> x == n || x in s
  {
    if s == [] then [n]
    else if Before(m, n, s[0]) then [n] + s
    else
      var r := [s[0]] + Insert(m, n, s[1..]);
      assert forall x :: x in s <==> x == s[0] || x in s[1..];
      r
  }

  lemma {:induction false} InsertKeepsAscending(m: Configs, n: Name, s: seq<Name>)
    requires n in m && Ascending(m, s) && n !in s
    ensures Ascending(m, Insert(m, n, s))
  {
    BeforeStrictTotalOrder(m);
    if s != [] && !Before(m, n, s[0]) {
      InsertKeepsAscending(m, n, s[1..]);
      var t := Insert(m, n, s[1..]);
      forall j | 0 <= j < |t| ensures Before(m, s[0], t[j]) {
        assert t[j] in t;
      }
    }
  }

  /** The sort of the ready list. */
  function SortNames(m: Configs, s: seq<Name>): (r: seq<Name>)
    requires forall x | x in s :: x in m
    ensures forall x :: x in r <==> x in s
  {
    if s == [] then [] else
      assert forall x :: x in s <==> x == s[0] || x in s[1..];
      Insert(m, s[0], SortNames(m, s[1..]))
  }

  lemma {:induction false} SortNamesAscending(m: Configs, s: seq<Name>)
    requires forall x | x in s :: x in m
    requires forall i, j | 0 <= i < j < |s| :: s[i] != s[j]
    ensures Ascending(m, SortNames(m, s))
  {
    if s != [] {
      SortNamesAscending(m, s[1..]);
      InsertKeepsAscending(m, s[0], SortNames(m, s[1..]));
    }
  }

  lemma FirstIsMember(s: seq<Name>)
    ensures s == [] || s[0] in s
  {
  }

  /** A set of names has one ascending listing, so no iteration or sorting order can show. */
  lemma {:induction false} AscendingUnique(m: Configs, s: seq<Name>, t: seq<Name>)
    requires Ascending(m, s) && Ascending(m, t)
    requires forall x :: x in s <==> x in t
    ensures s == t
  {
    BeforeStrictTotalOrder(m);
    if s == [] {
      FirstIsMember(t);
    } else {
      assert s[0] in t;
      assert t[0] in s;
      assert s[0] == t[0];
      forall x ensures x in s[1..] <==> x in t[1..] {
        assert x in s <==> x == s[0] || x in s[1..];
        assert x in t <==> x == t[0] || x in t[1..];
      }
      AscendingUnique(m, s[1..], t[1..]);
      assert s == [s[0]] + s[1..] && t == [t[0]] + t[1..];
    }
  }
}

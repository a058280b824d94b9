/** Placeholder expansion in program definitions: one ReplaceAll pass after another, against substituting all
    placeholders at once. */
module Expansion {

  datatype Sub = Sub(hole: string, value: string)

  /** Go's ReplaceAll for a non-empty `old`: leftmost occurrences, not overlapping, inserted text not rescanned. */
  function ReplaceAll(s: string, old_: string, new_: string): string
    requires old_ != []
    decreases |s|
  {
    if s == [] then []
    else if old_ <= s then new_ + ReplaceAll(s[|old_|..], old_, new_)
    else [s[0]] + ReplaceAll(s[1..], old_, new_)
  }

  /** `${NAME}`: a dollar sign only at the start, a closing brace only at the end. */
  predicate IsHole(h: string) {
    && |h| >= 2 && h[0] == '$' && h[|h|-1] == '}'
    && (forall i | 0 < i < |h| :: h[i] != '$')
    && (forall i | 0 <= i < |h| - 1 :: h[i] != '}')
  }

  type Table = seq<Sub>

  predicate IsTable(t: Table) {
    && (forall k | 0 <= k < |t| :: IsHole(t[k].hole))
    && (forall j, k | 0 <= j < k < |t| :: t[j].hole != t[k].hole)
  }

  /** The passes from number `k` on. */
  function Passes(s: string, t: Table, k: nat): string
    requires k <= |t| && forall j | 0 <= j < |t| :: t[j].hole != []
    decreases |t| - k
  {
    if k == |t| then s else Passes(ReplaceAll(s, t[k].hole, t[k].value), t, k + 1)
  }

  /** The entry whose placeholder `s` begins with, or |t|. */
  function MatchAt(s: string, t: Table): (k: nat)
    ensures k <= |t| && (k < |t| ==> t[k].hole <= s)
    ensures forall j | 0 <= j < k :: !(t[j].hole <= s)
  {
    if t == [] then 0 else if t[0].hole <= s then 0 else 1 + MatchAt(s, t[1..])
  }

  /** All placeholders at once, left to right, inserted text never looked at again. */
  function Simultaneous(s: string, t: Table): string
    requires forall j | 0 <= j < |t| :: t[j].hole != []
    decreases |s|
  {
    if s == [] then []
    else
      var k := MatchAt(s, t);
      if k < |t| then t[k].value + Simultaneous(s[|t[k].hole|..], t)
      else [s[0]] + Simultaneous(s[1..], t)
  }

  /** `p` occurs in `s`. */
  predicate Holds(s: string, p: string) {
    exists i | 0 <= i <= |s| :: p <= s[i..]
  }

  /** Some end of `a` is some beginning of `b`. */
  predicate RunsInto(a: string, b: string) {
    exists n | 0 < n <= |a| && n <= |b| :: a[|a|-n..] == b[..n]
  }

  /** A value that can take part in the placeholder: one holds the other, or they share an end and a beginning. */
  predicate Overlaps(v: string, h: string) {
    Holds(v, h) || Holds(h, v) || RunsInto(v, h) || RunsInto(h, v)
  }

  /** Value `k` overlaps no placeholder that a later pass replaces. */
  predicate Independent(t: Table, k: nat)
    requires k < |t|
  {
    forall j | k < j < |t| :: !Overlaps(t[k].value, t[j].hole)
  }

  predicate AllIndependent(t: Table) {
    forall k | 0 <= k < |t| :: Independent(t, k)
  }

  // ---- text as pieces ----

  /** A plain character, a placeholder, or a value put in place of one. */
  datatype Piece = Ch(c: char) | Hole(k: nat) | Val(k: nat)

  predicate Known(ps: seq<Piece>, t: Table) {
    forall i | 0 <= i < |ps| && !ps[i].Ch? :: ps[i].k < |t|
  }

  function Text(p: Piece, t: Table): string
    requires !p.Ch? ==> p.k < |t|
  {
    match p
    case Ch(c) => [c]
    case Hole(k) => t[k].hole
    case Val(k) => t[k].value
  }

  ghost function Flatten(ps: seq<Piece>, t: Table): string
    requires Known(ps, t)
  {
    if ps == [] then [] else Text(ps[0], t) + Flatten(ps[1..], t)
  }

  /** The first piece of the text, and what follows it. */
  function LexHead(s: string, t: Table): (r: (Piece, string))
    requires s != [] && forall j | 0 <= j < |t| :: t[j].hole != []
    ensures |r.1| < |s| && !r.0.Val? && (r.0.Hole? ==> r.0.k < |t|)
    ensures r.0.Ch? ==> forall j | 0 <= j < |t| :: !(t[j].hole <= s)
    ensures s == Text(r.0, t) + r.1
  {
    var k := MatchAt(s, t);
    if k < |t| then (Hole(k), s[|t[k].hole|..]) else (Ch(s[0]), s[1..])
  }

  function Lex(s: string, t: Table): seq<Piece>
    requires forall j | 0 <= j < |t| :: t[j].hole != []
    decreases |s|
  {
    if s == [] then []
    else
      var (p, rest) := LexHead(s, t);
      [p] + Lex(rest, t)
  }

  /** Placeholder `k` replaced by its value. */
  function Fill(ps: seq<Piece>, k: nat): seq<Piece> {
    if ps == [] then [] else [if ps[0] == Hole(k) then Val(k) else ps[0]] + Fill(ps[1..], k)
  }

  function FillFrom(ps: seq<Piece>, k: nat, n: nat): seq<Piece>
    requires k <= n
    decreases n - k
  {
    if k == n then ps else FillFrom(Fill(ps, k), k + 1, n)
  }

  /** Placeholder `h` does not occur from any plain character on. */
  ghost predicate Clean(ps: seq<Piece>, t: Table, h: string)
    requires Known(ps, t)
  {
    ps == [] || ((ps[0].Ch? ==> !(h <= Flatten(ps, t))) && Clean(ps[1..], t, h))
  }

  /** The values already put in do not overlap the placeholder. */
  predicate ValsApart(ps: seq<Piece>, t: Table, h: string)
    requires Known(ps, t)
  {
    forall i | 0 <= i < |ps| && ps[i].Val? :: !Overlaps(t[ps[i].k].value, h)
  }

  lemma HolesNonEmpty(t: Table)
    requires IsTable(t)
    ensures forall j | 0 <= j < |t| :: t[j].hole != []
  {
  }

  lemma {:induction false} LexFlattens(s: string, t: Table)
    requires IsTable(t)
    ensures Known(Lex(s, t), t) && Flatten(Lex(s, t), t) == s
    ensures forall i | 0 <= i < |Lex(s, t)| :: !Lex(s, t)[i].Val?
    decreases |s|
  {
    HolesNonEmpty(t);
    hide IsTable, LexHead, Text;
    if s != [] {
      var (p, rest) := LexHead(s, t);
      LexFlattens(rest, t);
      assert Lex(s, t) == [p] + Lex(rest, t);
      hide Flatten, Lex;
      FlattenCons(p, Lex(rest, t), t);
    }
  }

  lemma {:induction false} LexClean(s: string, t: Table, j: nat)
    requires IsTable(t) && j < |t|
    ensures Known(Lex(s, t), t) && Clean(Lex(s, t), t, t[j].hole)
    decreases |s|
  {
    LexFlattens(s, t);
    HolesNonEmpty(t);
    hide IsTable, LexHead, Text;
    if s != [] {
      var (p, rest) := LexHead(s, t);
      LexClean(rest, t, j);
      assert Lex(s, t)[1..] == Lex(rest, t);
    }
  }

  lemma {:induction false} FillKnown(ps: seq<Piece>, t: Table, k: nat)
    requires Known(ps, t) && k < |t|
    ensures Known(Fill(ps, k), t) && |Fill(ps, k)| == |ps|
    ensures forall i | 0 <= i < |ps| :: Fill(ps, k)[i] == if ps[i] == Hole(k) then Val(k) else ps[i]
  {
    if ps != [] {
      FillKnown(ps[1..], t, k);
    }
  }

  // ---- one pass ----

  /** ReplaceAll passes over text without a dollar sign. */
  lemma {:induction false} PassOver(a: string, b: string, hole: string, value: string)
    requires IsHole(hole) && '$' !in a
    ensures ReplaceAll(a + b, hole, value) == a + ReplaceAll(b, hole, value)
  {
    if a == [] {
      assert a + b == b;
    } else {
      assert (a + b)[0] == a[0] && (a + b)[1..] == a[1..] + b;
      assert !(hole <= a + b) by {
        assert a[0] in a;
      }
      PassOver(a[1..], b, hole, value);
      assert a == [a[0]] + a[1..];
    }
  }

  lemma PassOne(s: string, hole: string, value: string)
    requires s != [] && hole != [] && !(hole <= s)
    ensures ReplaceAll(s, hole, value) == [s[0]] + ReplaceAll(s[1..], hole, value)
  {
  }

  /** No placeholder begins with another. */
  lemma SameHole(h: string, b: string, hole: string)
    requires IsHole(hole) && IsHole(h) && hole <= h + b
    ensures hole == h
  {
    var s := h + b;
    assert s[|hole|-1] == '}' && s[|h|-1] == '}';
    assert forall i | 0 <= i < |h| - 1 :: s[i] == h[i];
    assert |hole| >= |h|;
    assert hole[|h|-1] == s[|h|-1];
    assert s[..|h|] == h;
  }

  /** It also passes over any other placeholder. */
  lemma PassOverHole(h: string, b: string, hole: string, value: string)
    requires IsHole(hole) && IsHole(h) && h != hole
    ensures !(hole <= h + b)
    ensures ReplaceAll(h + b, hole, value) == h + ReplaceAll(b, hole, value)
  {
    hide ReplaceAll;
    if hole <= h + b {
      SameHole(h, b, hole);
    }
    assert ReplaceAll(h + b, hole, value) == [h[0]] + ReplaceAll((h + b)[1..], hole, value) by {
      PassOne(h + b, hole, value);
    }
    assert (h + b)[1..] == h[1..] + b;
    PassOver(h[1..], b, hole, value);
    assert h == [h[0]] + h[1..];
  }

  /** It passes over a value that does not overlap the placeholder. */
  lemma {:induction false} PassOverValue(v: string, x: nat, b: string, hole: string, value: string)
    requires IsHole(hole) && !Overlaps(v, hole) && x <= |v|
    ensures ReplaceAll(v[x..] + b, hole, value) == v[x..] + ReplaceAll(b, hole, value)
    decreases |v| - x
  {
    if x == |v| {
      assert v[x..] + b == b;
    } else {
      hide ReplaceAll, IsHole;
      StartsOutside(v, x, b, hole);
      PassOne(v[x..] + b, hole, value);
      assert (v[x..] + b)[1..] == v[x+1..] + b;
      PassOverValue(v, x + 1, b, hole, value);
      assert v[x..] == [v[x]] + v[x+1..];
    }
  }

  lemma StartsInside(v: string, x: nat, b: string, hole: string)
    requires x < |v| && hole <= v[x..] + b
    ensures Holds(v, hole) || RunsInto(v, hole)
  {
    var n, s := |v| - x, v[x..] + b;
    if |hole| <= n {
      assert v[x..][..|hole|] == s[..|hole|];
      assert hole <= v[x..];
    } else {
      assert v[|v|-n..] == s[..n] == hole[..n];
    }
  }

  lemma StartsOutside(v: string, x: nat, b: string, hole: string)
    requires !Holds(v, hole) && !RunsInto(v, hole) && x < |v|
    ensures !(hole <= v[x..] + b)
  {
    if hole <= v[x..] + b {
      StartsInside(v, x, b, hole);
    }
  }

  /** A pass over clean pieces fills exactly its own placeholders. */
  lemma {:induction false} PassFills(ps: seq<Piece>, t: Table, k: nat)
    requires IsTable(t) && k < |t| && Known(ps, t) && ValsApart(ps, t, t[k].hole) && Clean(ps, t, t[k].hole)
    ensures Known(Fill(ps, k), t)
    ensures ReplaceAll(Flatten(ps, t), t[k].hole, t[k].value) == Flatten(Fill(ps, k), t)
    decreases |ps|
  {
    FillKnown(ps, t, k);
    if ps != [] {
      var s, p, rest := Flatten(ps, t), ps[0], ps[1..];
      FillKnown(rest, t, k);
      PassFills(rest, t, k);
      var tail := Flatten(rest, t);
      assert Fill(ps, k)[1..] == Fill(rest, k);
      if p == Hole(k) {
        assert s[|t[k].hole|..] == tail;
        assert t[k].hole <= s;
      } else {
        match p
        case Ch(c) =>
          assert s[1..] == tail;
        case Hole(m) =>
          PassOverHole(t[m].hole, tail, t[k].hole, t[k].value);
        case Val(m) =>
          assert t[m].value[0..] == t[m].value;
          PassOverValue(t[m].value, 0, tail, t[k].hole, t[k].value);
      }
    }
  }

  // ---- filling creates no new placeholder ----

  lemma TailHitsValue(h: string, i: nat, v: string, b: string)
    requires i < |h| && h[i..] <= v + b
    ensures Holds(h, v) || RunsInto(h, v)
  {
    var w, s := h[i..], v + b;
    if |w| <= |v| {
      assert h[|h|-|w|..] == w == s[..|w|] == v[..|w|];
    } else {
      assert s[..|v|] == v == w[..|v|];
      assert v <= h[i..];
    }
  }

  /** What is left of a placeholder cannot continue in a value that does not overlap it. */
  lemma TailMissesValue(h: string, i: nat, v: string, b: string)
    requires i < |h| && !Holds(h, v) && !RunsInto(h, v)
    ensures !(h[i..] <= v + b)
  {
    if h[i..] <= v + b {
      TailHitsValue(h, i, v, b);
    }
  }

  lemma TailMissesHole(h: string, i: nat, g: string, b: string)
    requires IsHole(h) && IsHole(g) && 0 < i < |h|
    ensures !(h[i..] <= g + b)
  {
    assert (g + b)[0] == '$' && h[i..][0] == h[i];
  }

  lemma PrefixCons(w: string, c: char, b: string)
    requires w != []
    ensures w <= [c] + b <==> w[0] == c && w[1..] <= b
  {
  }

  /** If the rest of a placeholder follows after filling, it followed before. */
  lemma {:induction false} TailUnfilled(ps: seq<Piece>, t: Table, k: nat, j: nat, i: nat)
    requires IsTable(t) && k < |t| && j < |t| && Known(ps, t)
    requires ValsApart(ps, t, t[j].hole) && !Overlaps(t[k].value, t[j].hole)
    requires Known(Fill(ps, k), t) && 0 < i <= |t[j].hole| && t[j].hole[i..] <= Flatten(Fill(ps, k), t)
    ensures t[j].hole[i..] <= Flatten(ps, t)
    decreases |ps|
  {
    hide Holds, RunsInto;
    FillKnown(ps, t, k);
    if i < |t[j].hole| {
      var h, f, rest := t[j].hole, Fill(ps, k), ps[1..];
      FillKnown(rest, t, k);
      assert f[1..] == Fill(rest, k);
      match f[0]
      case Ch(c) =>
        PrefixCons(h[i..], c, Flatten(f[1..], t));
        PrefixCons(h[i..], c, Flatten(rest, t));
        assert h[i..][1..] == h[i+1..];
        TailUnfilled(rest, t, k, j, i + 1);
      case Hole(m) =>
        TailMissesHole(h, i, t[m].hole, Flatten(f[1..], t));
      case Val(m) =>
        TailMissesValue(h, i, t[m].value, Flatten(f[1..], t));
    }
  }

  /** Putting in a value that does not overlap a placeholder leaves the pieces clean of it. */
  lemma {:induction false} FillKeepsClean(ps: seq<Piece>, t: Table, k: nat, j: nat)
    requires IsTable(t) && k < |t| && j < |t| && Known(ps, t) && Clean(ps, t, t[j].hole)
    requires ValsApart(ps, t, t[j].hole) && !Overlaps(t[k].value, t[j].hole)
    ensures Known(Fill(ps, k), t) && ValsApart(Fill(ps, k), t, t[j].hole) && Clean(Fill(ps, k), t, t[j].hole)
    decreases |ps|
  {
    hide Overlaps;
    FillKnown(ps, t, k);
    if ps != [] {
      var f, h, rest := Fill(ps, k), t[j].hole, ps[1..];
      FillKeepsClean(rest, t, k, j);
      assert f[1..] == Fill(rest, k);
      if ps[0].Ch? && h <= Flatten(f, t) {
        PrefixCons(h, ps[0].c, Flatten(f[1..], t));
        PrefixCons(h, ps[0].c, Flatten(rest, t));
        TailUnfilled(rest, t, k, j, 1);
      }
    }
  }

  // ---- all passes ----

  /** Clean of every placeholder from number `k` on. */
  ghost predicate CleanFrom(ps: seq<Piece>, t: Table, k: nat)
    requires Known(ps, t)
  {
    forall j | k <= j < |t| :: Clean(ps, t, t[j].hole) && ValsApart(ps, t, t[j].hole)
  }

  /** Passes `k` to `n` fill placeholders `k` to `n`, if each value but the last is independent. */
  lemma {:induction false} PassesFill(ps: seq<Piece>, t: Table, k: nat, n: nat)
    requires IsTable(t) && k <= n <= |t| && Known(ps, t) && CleanFrom(ps, t, k)
    requires forall i | k <= i && i + 1 < n :: Independent(t, i)
    ensures Known(FillFrom(ps, k, n), t)
    ensures Passes(Flatten(ps, t), t, k) == Passes(Flatten(FillFrom(ps, k, n), t), t, n)
    decreases n - k
  {
    hide Fill, Clean, ReplaceAll, Flatten, Overlaps;
    if k < n {
      PassFills(ps, t, k);
      var f := Fill(ps, k);
      if k + 1 < n {
        forall j | k + 1 <= j < |t| ensures Clean(f, t, t[j].hole) && ValsApart(f, t, t[j].hole) {
          assert Independent(t, k);
          FillKeepsClean(ps, t, k, j);
        }
        PassesFill(f, t, k + 1, n);
      } else {
        assert FillFrom(ps, k, n) == f;
      }
    }
  }

  lemma {:induction false} FillFromPieces(ps: seq<Piece>, k: nat, n: nat)
    requires k <= n
    ensures |FillFrom(ps, k, n)| == |ps|
    ensures forall i | 0 <= i < |ps| ::
              FillFrom(ps, k, n)[i] == if ps[i].Hole? && k <= ps[i].k < n then Val(ps[i].k) else ps[i]
    decreases n - k
  {
    if k < n {
      FillPieces(ps, k);
      FillFromPieces(Fill(ps, k), k + 1, n);
    }
  }

  lemma {:induction false} FillPieces(ps: seq<Piece>, k: nat)
    ensures |Fill(ps, k)| == |ps|
    ensures forall i | 0 <= i < |ps| :: Fill(ps, k)[i] == if ps[i] == Hole(k) then Val(k) else ps[i]
  {
    if ps != [] {
      FillPieces(ps[1..], k);
    }
  }

  lemma SimultaneousStep(s: string, t: Table)
    requires s != [] && forall j | 0 <= j < |t| :: t[j].hole != []
    ensures var (p, rest) := LexHead(s, t);
            Simultaneous(s, t) == Text(if p.Hole? then Val(p.k) else p, t) + Simultaneous(rest, t)
  {
  }

  /** Every placeholder of the lexed text filled: the simultaneous substitution. */
  lemma {:induction false} LexFilled(s: string, t: Table, f: seq<Piece>)
    requires IsTable(t) && f == FillFrom(Lex(s, t), 0, |t|)
    ensures Known(f, t) && Flatten(f, t) == Simultaneous(s, t)
    decreases |s|
  {
    var ps := Lex(s, t);
    LexFlattens(s, t);
    FillFromPieces(ps, 0, |t|);
    HolesNonEmpty(t);
    if s != [] {
      hide IsTable, LexHead, Text, Fill, FillFrom, Simultaneous;
      var (p, rest) := LexHead(s, t);
      var g := FillFrom(Lex(rest, t), 0, |t|);
      LexFilled(rest, t, g);
      FillFromPieces(Lex(rest, t), 0, |t|);
      SimultaneousStep(s, t);
      assert f[1..] == g;
    }
  }

  lemma LexAllClean(s: string, t: Table)
    requires IsTable(t)
    ensures Known(Lex(s, t), t) && CleanFrom(Lex(s, t), t, 0)
  {
    HolesNonEmpty(t);
    hide IsTable, Overlaps;
    LexFlattens(s, t);
    forall j | 0 <= j < |t| ensures Clean(Lex(s, t), t, t[j].hole) {
      LexClean(s, t, j);
    }
  }

  /** If every value is independent, doing one pass after another is substituting all placeholders at once. */
  lemma PassesAreSimultaneous(s: string, t: Table)
    requires IsTable(t) && AllIndependent(t)
    ensures Passes(s, t, 0) == Simultaneous(s, t)
  {
    hide Independent, Clean;
    var ps := Lex(s, t);
    LexFlattens(s, t);
    LexAllClean(s, t);
    PassesFill(ps, t, 0, |t|);
    LexFilled(s, t, FillFrom(ps, 0, |t|));
  }

  // ---- the result ----

  lemma HoldsCons(s: string, p: string)
    requires s != [] && p != []
    ensures Holds(s, p) <==> p <= s || Holds(s[1..], p)
  {
    assert s[0..] == s;
    if i :| 0 <= i <= |s| && p <= s[i..] && i > 0 {
      assert s[1..][i-1..] == s[i..];
    }
    if i :| 0 <= i <= |s[1..]| && p <= s[1..][i..] {
      assert s[i+1..] == s[1..][i..];
    }
  }

  lemma {:induction false} HoldsPast(v: string, x: nat, b: string, h: string)
    requires IsHole(h) && !Overlaps(v, h) && x <= |v| && !Holds(b, h)
    ensures !Holds(v[x..] + b, h)
    decreases |v| - x
  {
    if x == |v| {
      assert v[x..] + b == b;
    } else {
      HoldsPast(v, x + 1, b, h);
      StartsOutside(v, x, b, h);
      HoldsCons(v[x..] + b, h);
      assert (v[x..] + b)[1..] == v[x+1..] + b;
    }
  }

  lemma {:induction false} NoHoleLeft(ps: seq<Piece>, t: Table, j: nat)
    requires IsTable(t) && j < |t| && Known(ps, t) && ValsApart(ps, t, t[j].hole) && Clean(ps, t, t[j].hole)
    requires forall i | 0 <= i < |ps| :: !ps[i].Hole?
    ensures !Holds(Flatten(ps, t), t[j].hole)
    decreases |ps|
  {
    hide Holds;
    if ps == [] {
      NothingHeld(t[j].hole);
    } else {
      NoHoleLeft(ps[1..], t, j);
      var tail := Flatten(ps[1..], t);
      match ps[0]
      case Ch(c) =>
        HoldsCons([c] + tail, t[j].hole);
        assert ([c] + tail)[1..] == tail;
      case Val(k) =>
        assert t[k].value[0..] == t[k].value;
        HoldsPast(t[k].value, 0, tail, t[j].hole);
    }
  }

  lemma NothingHeld(h: string)
    requires h != []
    ensures !Holds([], h)
  {
  }

  /** No value overlaps placeholder `j`. */
  predicate Untouched(t: Table, j: nat)
    requires j < |t|
  {
    forall k | 0 <= k < |t| :: !Overlaps(t[k].value, t[j].hole)
  }

  lemma {:induction false} FillFromClean(ps: seq<Piece>, t: Table, k: nat, j: nat)
    requires IsTable(t) && k <= |t| && j < |t| && Known(ps, t) && Untouched(t, j)
    requires Clean(ps, t, t[j].hole) && ValsApart(ps, t, t[j].hole)
    ensures var f := FillFrom(ps, k, |t|); Known(f, t) && Clean(f, t, t[j].hole) && ValsApart(f, t, t[j].hole)
    decreases |t| - k
  {
    hide Overlaps, Clean;
    if k < |t| {
      FillKeepsClean(ps, t, k, j);
      FillFromClean(Fill(ps, k), t, k + 1, j);
    }
  }

  /** A placeholder that no value overlaps is not left in the result. */
  lemma NoneLeft(s: string, t: Table, j: nat)
    requires IsTable(t) && j < |t| && Untouched(t, j)
    ensures !Holds(Simultaneous(s, t), t[j].hole)
  {
    hide Overlaps, Clean, Holds;
    var ps := Lex(s, t);
    var f := FillFrom(ps, 0, |t|);
    LexFlattens(s, t);
    LexClean(s, t, j);
    FillFromClean(ps, t, 0, j);
    LexFilled(s, t, f);
    FillFromPieces(ps, 0, |t|);
    NoHoleLeft(f, t, j);
  }

  // ---- no weaker condition will do ----

  lemma {:induction false} ReplaceGrows(s: string, hole: string, value: string)
    requires hole != [] && |value| > |hole|
    ensures |ReplaceAll(s, hole, value)| >= |s|
    ensures if Holds(s, hole) then |ReplaceAll(s, hole, value)| > |s| else ReplaceAll(s, hole, value) == s
    decreases |s|
  {
    hide Holds;
    if s == [] {
      NothingHeld(hole);
    } else {
      HoldsCons(s, hole);
      if hole <= s {
        ReplaceGrows(s[|hole|..], hole, value);
      } else {
        ReplaceGrows(s[1..], hole, value);
        assert s == [s[0]] + s[1..];
      }
    }
  }

  predicate Long(t: Table, k: nat) {
    forall j | k <= j < |t| :: |t[j].value| > |t[j].hole|
  }

  /** Long values make text longer in every pass that finds its placeholder. */
  lemma {:induction false} PassesGrow(s: string, t: Table, k: nat, j: nat)
    requires IsTable(t) && k <= |t| && Long(t, k)
    ensures |Passes(s, t, k)| >= |s|
    ensures k <= j < |t| && Holds(s, t[j].hole) ==> |Passes(s, t, k)| > |s|
    decreases |t| - k
  {
    hide Holds, ReplaceAll;
    if k < |t| {
      ReplaceGrows(s, t[k].hole, t[k].value);
      PassesGrow(ReplaceAll(s, t[k].hole, t[k].value), t, k + 1, j);
    }
  }

  /** Text around a placeholder that shows an overlap once the value is put in its place. */
  lemma Revealing(v: string, h: string) returns (a: string, b: string)
    requires IsHole(h) && Overlaps(v, h)
    ensures '}' !in a && '$' !in b && Holds(a + v + b, h)
  {
    hide IsHole, Holds, RunsInto;
    if Holds(v, h) {
      a, b := "", "";
      assert a + v + b == v;
    } else if Holds(h, v) {
      a, b := Around(v, h);
    } else if RunsInto(v, h) {
      a, b := After(v, h);
    } else {
      a, b := Before(v, h);
    }
  }

  lemma CutHole(h: string, i: nat)
    requires IsHole(h) && i <= |h|
    ensures i < |h| ==> '}' !in h[..i]
    ensures i > 0 ==> '$' !in h[i..]
  {
  }

  lemma Around(v: string, h: string) returns (a: string, b: string)
    requires IsHole(h) && Holds(h, v) && !Holds(v, h)
    ensures '}' !in a && '$' !in b && Holds(a + v + b, h)
  {
    var i: nat := 1;
    if v != [] {
      i :| i <= |h| && v <= h[i..];
      assert i < |h|;
    }
    hide IsHole, Holds;
    a, b := AroundAt(v, h, i);
    WholeHeld(h);
  }

  lemma AroundAt(v: string, h: string, i: nat) returns (a: string, b: string)
    requires IsHole(h) && i <= |h| && v <= h[i..] && i < |h| && i + |v| > 0
    ensures '}' !in a && '$' !in b && a + v + b == h
  {
    hide IsHole;
    a, b := h[..i], h[i+|v|..];
    CutHole(h, i);
    CutHole(h, i + |v|);
    ThreeParts(v, h, i);
  }

  lemma ThreeParts(v: string, h: string, i: nat)
    requires i <= |h| && v <= h[i..]
    ensures h[..i] + v + h[i+|v|..] == h
  {
    assert v == h[i..][..|v|];
  }

  lemma After(v: string, h: string) returns (a: string, b: string)
    requires IsHole(h) && RunsInto(v, h)
    ensures '}' !in a && '$' !in b && Holds(a + v + b, h)
  {
    var n :| 0 < n <= |v| && n <= |h| && v[|v|-n..] == h[..n];
    a, b := "", h[n..];
    CutHole(h, n);
    assert a + v + b == v[..|v|-n] + h + "";
    HoldsAt(v[..|v|-n], h, "");
  }

  lemma Before(v: string, h: string) returns (a: string, b: string)
    requires IsHole(h) && RunsInto(h, v)
    ensures '}' !in a && '$' !in b && Holds(a + v + b, h)
  {
    var n :| 0 < n <= |h| && n <= |v| && h[|h|-n..] == v[..n];
    a, b := h[..|h|-n], "";
    CutHole(h, |h| - n);
    assert a + v + b == "" + h + v[n..];
    HoldsAt("", h, v[n..]);
  }

  lemma WholeHeld(h: string)
    ensures Holds(h, h)
  {
    assert "" + h + "" == h;
    HoldsAt("", h, "");
  }

  lemma HoldsAt(x: string, h: string, y: string)
    ensures Holds(x + h + y, h)
  {
    assert h <= (x + h + y)[|x|..];
  }

  /** Plain text as pieces. */
  function Chars(s: string): seq<Piece> {
    seq(|s|, i requires 0 <= i < |s| => Ch(s[i]))
  }

  lemma CharsCons(s: string, rest: seq<Piece>)
    requires s != []
    ensures Chars(s) + rest == [Ch(s[0])] + (Chars(s[1..]) + rest)
  {
  }

  lemma {:induction false} CharsFlatten(s: string, t: Table, rest: seq<Piece>)
    requires Known(rest, t)
    ensures Known(Chars(s) + rest, t) && Flatten(Chars(s) + rest, t) == s + Flatten(rest, t)
  {
    if s == [] {
      assert Chars(s) + rest == rest;
    } else {
      var tail := Chars(s[1..]) + rest;
      CharsFlatten(s[1..], t, rest);
      CharsCons(s, rest);
      hide Flatten, Chars;
      FlattenCons(Ch(s[0]), tail, t);
      var f := Flatten(rest, t);
      assert s + f == [s[0]] + (s[1..] + f);
    }
  }

  lemma FlattenCons(p: Piece, rest: seq<Piece>, t: Table)
    requires (!p.Ch? ==> p.k < |t|) && Known(rest, t)
    ensures Known([p] + rest, t) && Flatten([p] + rest, t) == Text(p, t) + Flatten(rest, t)
  {
    assert ([p] + rest)[1..] == rest;
  }

  /** `a`, placeholder `k`, `b`. */
  function Framed(a: string, k: nat, b: string): seq<Piece> {
    Chars(a) + ([Hole(k)] + Chars(b))
  }

  lemma {:induction false} FramedFlattens(a: string, k: nat, b: string, t: Table)
    requires k < |t|
    ensures Known(Framed(a, k, b), t) && Flatten(Framed(a, k, b), t) == a + (t[k].hole + b)
    ensures Known(Chars(a) + ([Val(k)] + Chars(b)), t)
    ensures Flatten(Chars(a) + ([Val(k)] + Chars(b)), t) == a + (t[k].value + b)
  {
    CharsFlatten(b, t, []);
    assert Chars(b) + [] == Chars(b) && b + [] == b;
    assert ([Hole(k)] + Chars(b))[1..] == Chars(b) && ([Val(k)] + Chars(b))[1..] == Chars(b);
    CharsFlatten(a, t, [Hole(k)] + Chars(b));
    CharsFlatten(a, t, [Val(k)] + Chars(b));
  }

  /** No placeholder begins in the text before the framed one, having to pass its dollar sign, */
  lemma NoneBefore(a: string, g: string, b: string, h: string)
    requires IsHole(h) && IsHole(g) && a != [] && '}' !in a
    ensures !(h <= a + (g + b))
  {
    var s := a + (g + b);
    assert s[|a|] == '$';
    assert |h| <= |a| ==> s[|h|-1] == a[|h|-1] && a[|h|-1] in a;
  }

  /** nor in the text after it, where there is none. */
  lemma {:induction false} CleanChars(b: string, t: Table, h: string)
    requires IsHole(h) && '$' !in b
    ensures Known(Chars(b), t) && Clean(Chars(b), t, h)
  {
    if b != [] {
      CleanChars(b[1..], t, h);
      CharsFlatten(b, t, []);
      assert Chars(b) + [] == Chars(b) && b + [] == b;
      assert Chars(b)[1..] == Chars(b[1..]);
      assert b[0] in b;
    }
  }

  lemma {:induction false} FramedClean(a: string, k: nat, b: string, t: Table, h: string)
    requires IsTable(t) && k < |t| && IsHole(h) && '}' !in a && '$' !in b
    ensures Known(Framed(a, k, b), t) && Clean(Framed(a, k, b), t, h)
  {
    FramedFlattens(a, k, b, t);
    if a == [] {
      CleanChars(b, t, h);
      assert Framed(a, k, b)[1..] == Chars(b);
    } else {
      FramedClean(a[1..], k, b, t, h);
      assert Framed(a, k, b)[1..] == Framed(a[1..], k, b);
      NoneBefore(a, t[k].hole, b, h);
    }
  }

  lemma LexHeadIs(p: Piece, rest: seq<Piece>, t: Table)
    requires IsTable(t) && !p.Val? && (p.Hole? ==> p.k < |t|) && Known(rest, t)
    requires p.Ch? ==> forall j | 0 <= j < |t| :: !(t[j].hole <= Text(p, t) + Flatten(rest, t))
    ensures LexHead(Text(p, t) + Flatten(rest, t), t) == (p, Flatten(rest, t))
  {
    var s := Text(p, t) + Flatten(rest, t);
    var (q, r) := LexHead(s, t);
    if p.Hole? {
      assert t[p.k].hole <= s;
      assert q.Hole?;
      SameHole(t[p.k].hole, Flatten(rest, t), t[q.k].hole);
    }
  }

  /** Clean pieces are what lexing finds. */
  lemma {:induction false} LexIs(ps: seq<Piece>, t: Table)
    requires IsTable(t) && Known(ps, t) && CleanFrom(ps, t, 0) && forall i | 0 <= i < |ps| :: !ps[i].Val?
    ensures Lex(Flatten(ps, t), t) == ps
    decreases |ps|
  {
    HolesNonEmpty(t);
    if ps != [] {
      var p, rest := ps[0], ps[1..];
      assert ps == [p] + rest && Known(rest, t);
      LexHeadIs(p, rest, t);
      LexIs(rest, t);
    }
  }

  lemma FramedLexed(a: string, k: nat, b: string, t: Table)
    requires IsTable(t) && k < |t| && '}' !in a && '$' !in b
    ensures Known(Framed(a, k, b), t) && CleanFrom(Framed(a, k, b), t, 0)
    ensures Lex(a + (t[k].hole + b), t) == Framed(a, k, b)
  {
    hide Clean, Overlaps;
    FramedFlattens(a, k, b, t);
    forall j | 0 <= j < |t| ensures Clean(Framed(a, k, b), t, t[j].hole) {
      FramedClean(a, k, b, t, t[j].hole);
    }
    LexIs(Framed(a, k, b), t);
  }

  lemma FramedFilled(a: string, k: nat, b: string, n: nat)
    requires k < n
    ensures FillFrom(Framed(a, k, b), 0, n) == Chars(a) + ([Val(k)] + Chars(b))
  {
    FillFromPieces(Framed(a, k, b), 0, n);
  }

  /** On such text the simultaneous substitution just puts the value in, and the passes up to `k` do the same. */
  lemma {:induction false} FramedResult(a: string, k: nat, b: string, t: Table)
    requires IsTable(t) && k < |t| && '}' !in a && '$' !in b && forall i | 0 <= i < k :: Independent(t, i)
    ensures var s := a + (t[k].hole + b); var r := a + (t[k].value + b);
            Simultaneous(s, t) == r && Passes(s, t, 0) == Passes(r, t, k + 1)
  {
    hide Independent, Clean, Passes, Simultaneous, FillFrom, Lex;
    var ps, s := Framed(a, k, b), a + (t[k].hole + b);
    FramedFlattens(a, k, b, t);
    FramedLexed(a, k, b, t);
    FramedFilled(a, k, b, k + 1);
    FramedFilled(a, k, b, |t|);
    PassesFill(ps, t, 0, k + 1);
    LexFilled(s, t, FillFrom(ps, 0, |t|));
  }

  /** `u` has the placeholders of `t`, and its values up to number `k`. */
  predicate Agrees(t: Table, u: Table, k: nat) {
    && |u| == |t| && (forall i | 0 <= i < |t| :: u[i].hole == t[i].hole)
    && (forall i | 0 <= i < |t| && i <= k :: u[i].value == t[i].value)
  }

  /** Whatever independent values come after number `k`, the passes are the simultaneous substitution on every text. */
  ghost predicate AlwaysSimultaneous(t: Table, k: nat)
    requires IsTable(t)
  {
    forall u: Table, s | Agrees(t, u, k) && IsTable(u) && (forall i | k < i < |u| :: Independent(u, i)) ::
      Passes(s, u, 0) == Simultaneous(s, u)
  }

  lemma AgreesIndependent(t: Table, u: Table, k: nat, i: nat)
    requires Agrees(t, u, k) && i <= k && i < |t|
    ensures Independent(u, i) <==> Independent(t, i)
  {
    assert forall j | i < j < |t| :: Overlaps(u[i].value, u[j].hole) <==> Overlaps(t[i].value, t[j].hole);
  }

  /** Values of the same foreign character, longer than every placeholder. */
  function Padded(t: Table, k: nat, z: char): (u: Table)
    ensures |u| == |t|
    ensures forall i | 0 <= i < |t| :: u[i] == if i <= k then t[i] else Sub(t[i].hole, seq(|t[i].hole| + 1, _ => z))
  {
    seq(|t|, i requires 0 <= i < |t| => if i <= k then t[i] else Sub(t[i].hole, seq(|t[i].hole| + 1, _ => z)))
  }

  lemma PaddingIsApart(z: char, n: nat, h: string)
    requires n > 0 && h != [] && z !in h
    ensures !Overlaps(seq(n, _ => z), h)
  {
    var v := seq(n, _ => z);
    assert v[0] in v && h[0] in h;
    OccursMembers(v, h);
    OccursMembers(h, v);
    RunsShare(v, h);
    RunsShare(h, v);
  }

  lemma PaddedIsFit(t: Table, k: nat, z: char)
    requires IsTable(t) && k < |t| && forall i | 0 <= i < |t| :: z !in t[i].hole
    ensures var u := Padded(t, k, z);
            Agrees(t, u, k) && IsTable(u) && Long(u, k + 1) && forall i | k < i < |u| :: Independent(u, i)
  {
    hide Overlaps;
    HolesNonEmpty(t);
    var u := Padded(t, k, z);
    forall i, j | k < i < j < |u| ensures !Overlaps(u[i].value, u[j].hole) {
      PaddingIsApart(z, |t[i].hole| + 1, t[j].hole);
    }
  }

  /** The condition is exact, value by value: those before it being independent, a value leaves the passes
      simultaneous on
      all texts, whatever independent values follow, exactly when it is independent. */
  lemma IndependentIff(t: Table, k: nat, z: char)
    requires IsTable(t) && k < |t| && (forall i | 0 <= i < k :: Independent(t, i))
    requires forall i | 0 <= i < |t| :: z !in t[i].hole
    ensures AlwaysSimultaneous(t, k) <==> Independent(t, k)
  {
    if Independent(t, k) {
      AllAgreeing(t, k);
    } else {
      var u := Padded(t, k, z);
      PaddedIsFit(t, k, z);
      var s := Separated(t, u, k);
    }
  }

  lemma AllAgreeing(t: Table, k: nat)
    requires IsTable(t) && k < |t| && forall i | 0 <= i <= k :: Independent(t, i)
    ensures AlwaysSimultaneous(t, k)
  {
    hide Independent, Passes, Simultaneous;
    forall u: Table, s | Agrees(t, u, k) && IsTable(u) && (forall i | k < i < |u| :: Independent(u, i))
      ensures Passes(s, u, 0) == Simultaneous(s, u)
    {
      forall i | 0 <= i < |u| ensures Independent(u, i) {
        if i <= k {
          AgreesIndependent(t, u, k, i);
        }
      }
      PassesAreSimultaneous(s, u);
    }
  }

  lemma EarlierIndependent(t: Table, u: Table, k: nat)
    requires Agrees(t, u, k) && k < |t| && forall i | 0 <= i < k :: Independent(t, i)
    ensures forall i | 0 <= i < k :: Independent(u, i)
  {
    hide Independent;
    forall i | 0 <= i < k ensures Independent(u, i) {
      AgreesIndependent(t, u, k, i);
    }
  }

  lemma Lengthened(u: Table, k: nat, j: nat, a: string, b: string)
    requires IsTable(u) && k < j < |u| && Long(u, k + 1) && Holds(a + u[k].value + b, u[j].hole)
    ensures |Passes(a + (u[k].value + b), u, k + 1)| > |a + (u[k].value + b)|
  {
    hide Passes, Holds, Long, IsTable;
    assert a + (u[k].value + b) == a + u[k].value + b;
    PassesGrow(a + (u[k].value + b), u, k + 1, j);
  }

  lemma Separated(t: Table, u: Table, k: nat) returns (s: string)
    requires IsTable(t) && k < |t| && (forall i | 0 <= i < k :: Independent(t, i)) && !Independent(t, k)
    requires Agrees(t, u, k) && IsTable(u) && Long(u, k + 1)
    ensures Passes(s, u, 0) != Simultaneous(s, u)
  {
    var j :| k < j < |t| && Overlaps(t[k].value, t[j].hole);
    EarlierIndependent(t, u, k);
    assert IsHole(t[j].hole) && u[j].hole == t[j].hole && u[k].value == t[k].value;
    hide Overlaps, Passes, Simultaneous, Holds, Independent, IsHole, Long, IsTable, Agrees;
    var a, b := Revealing(t[k].value, t[j].hole);
    s := a + (u[k].hole + b);
    FramedResult(a, k, b, u);
    Lengthened(u, k, j, a, b);
  }

  // ---- the four placeholders ----

  const UID := "${UID}"
  const HOME := "${HOME}"
  const XDG := "${XDG_RUNTIME_DIR}"
  const ADE := "${ADE_RUNTIME_DIR}"

  /** The environment variable, or the fallback when it is unset or empty. */
  function OrElse(env: string, fallback: string): string {
    if env == "" then fallback else env
  }

  function Xdg(env: string, uid: string): string {
    OrElse(env, "/run/user/" + uid)
  }

  function Ade(env: string, uid: string): string {
    OrElse(env, "/tmp/ade-" + uid)
  }

  function VarTable(uid: string, home: string, xdg: string, ade: string): Table {
    [Sub(UID, uid), Sub(HOME, home), Sub(XDG, Xdg(xdg, uid)), Sub(ADE, Ade(ade, uid))]
  }

  method ExpandVar(s0: string, uid: string, home: string, xdgEnv: string, adeEnv: string) returns (s: string)
    ensures s == Passes(s0, VarTable(uid, home, xdgEnv, adeEnv), 0)
  {
    hide ReplaceAll;
    var t := VarTable(uid, home, xdgEnv, adeEnv);
    s := s0;
    s := ReplaceAll(s, UID, uid);
    s := ReplaceAll(s, HOME, home);
    var xdgRuntime := xdgEnv;
    if xdgRuntime == "" {
      xdgRuntime := "/run/user/" + uid;
    }
    s := ReplaceAll(s, XDG, xdgRuntime);
    s := ReplaceAll(s, ADE, Ade(adeEnv, uid));
    FourPasses(s0, t);
  }

  lemma FourPasses(s: string, t: Table)
    requires |t| == 4 && forall j | 0 <= j < |t| :: t[j].hole != []
    ensures Passes(s, t, 0) ==
              ReplaceAll(ReplaceAll(ReplaceAll(ReplaceAll(s, t[0].hole, t[0].value), t[1].hole, t[1].value),
                                    t[2].hole, t[2].value), t[3].hole, t[3].value)
  {
    hide ReplaceAll;
    var a := ReplaceAll(s, t[0].hole, t[0].value);
    var b := ReplaceAll(a, t[1].hole, t[1].value);
    var c := ReplaceAll(b, t[2].hole, t[2].value);
    var d := ReplaceAll(c, t[3].hole, t[3].value);
    assert Passes(d, t, 4) == d;
    assert Passes(c, t, 3) == d;
    assert Passes(b, t, 2) == d;
    assert Passes(a, t, 1) == d;
  }

  lemma ShortHoles()
    ensures IsHole(UID) && IsHole(HOME) && |UID| == 6 && |HOME| == 7
  {
  }

  lemma XdgHole()
    ensures IsHole(XDG) && |XDG| == 18 && XDG[2] == 'X'
  {
  }

  lemma AdeHole()
    ensures IsHole(ADE) && |ADE| == 18 && ADE[2] == 'A'
  {
  }

  lemma VarTableIsTable(t: Table)
    requires |t| == 4 && t[0].hole == UID && t[1].hole == HOME && t[2].hole == XDG && t[3].hole == ADE
    ensures IsTable(t)
  {
    hide IsHole;
    ShortHoles();
    XdgHole();
    AdeHole();
    assert t[2].hole[2] == 'X' && t[3].hole[2] == 'A';
  }

  /** Digits and slashes occur in no placeholder. */
  predicate IsForeign(c: char) {
    '0' <= c <= '9' || c == '/'
  }

  /** What a login session provides: no dollar sign or closing brace, and a digit or a slash somewhere. */
  predicate Plain(v: string) {
    '$' !in v && '}' !in v && exists c | c in v :: IsForeign(c)
  }

  lemma ForeignOutside(c: char)
    requires IsForeign(c)
    ensures c !in UID && c !in HOME && c !in XDG && c !in ADE
  {
  }

  lemma ForeignToTable(c: char, t: Table)
    requires |t| == 4 && t[0].hole == UID && t[1].hole == HOME && t[2].hole == XDG && t[3].hole == ADE
    requires IsForeign(c)
    ensures forall k | 0 <= k < |t| :: c !in t[k].hole
  {
    hide IsForeign;
    ForeignOutside(c);
    forall k | 0 <= k < |t| ensures c !in t[k].hole {
      assert k == 0 || k == 1 || k == 2 || k == 3;
    }
  }

  lemma PlainIsApart(v: string, h: string)
    requires Plain(v) && IsHole(h) && forall c | c in h :: !IsForeign(c)
    ensures !Overlaps(v, h)
  {
    var c :| c in v && IsForeign(c);
    OccursMembers(v, h);
    OccursMembers(h, v);
    RunsShare(v, h);
    RunsShare(h, v);
  }

  lemma RunsShare(a: string, b: string)
    ensures RunsInto(a, b) ==> |a| > 0 && |b| > 0 && b[0] in a && a[|a|-1] in b
  {
    if n :| 0 < n <= |a| && n <= |b| && a[|a|-n..] == b[..n] {
      assert b[0] == a[|a|-n..][0] == a[|a|-n];
      assert a[|a|-1] == a[|a|-n..][n-1] == b[n-1];
    }
  }

  lemma OccursMembers(s: string, p: string)
    ensures Holds(s, p) ==> forall c | c in p :: c in s
  {
    if i :| 0 <= i <= |s| && p <= s[i..] {
      forall c | c in p ensures c in s {
        var k :| 0 <= k < |p| && p[k] == c;
        assert s[i..][k] == s[i + k];
      }
    }
  }

  lemma PlainInTable(v: string, t: Table, j: nat)
    requires |t| == 4 && t[0].hole == UID && t[1].hole == HOME && t[2].hole == XDG && t[3].hole == ADE && j < 4
    requires Plain(v)
    ensures !Overlaps(v, t[j].hole)
  {
    hide IsHole, Plain, Overlaps;
    VarTableIsTable(t);
    forall c | IsForeign(c) ensures c !in t[j].hole {
      ForeignToTable(c, t);
    }
    PlainIsApart(v, t[j].hole);
  }

  lemma FallbackIsPlain(prefix: string, uid: string, env: string)
    requires Plain(uid) && (env == "" || Plain(env)) && '$' !in prefix && '}' !in prefix
    ensures Plain(OrElse(env, prefix + uid))
  {
  }

  /** Expanding one variable after another is substituting all four at once whenever no value overlaps a placeholder
      expanded after it; and a placeholder that no value overlaps is not left. */
  lemma ExpandIsSimultaneous(s: string, uid: string, home: string, xdgEnv: string, adeEnv: string)
    requires AllIndependent(VarTable(uid, home, xdgEnv, adeEnv))
    ensures var t := VarTable(uid, home, xdgEnv, adeEnv);
            && Passes(s, t, 0) == Simultaneous(s, t)
            && forall j: nat | j < 4 && Untouched(t, j) :: !Holds(Passes(s, t, 0), t[j].hole)
  {
    hide Passes, Simultaneous, Holds, IsHole, Independent, Untouched;
    var t := VarTable(uid, home, xdgEnv, adeEnv);
    VarTableIsTable(t);
    PassesAreSimultaneous(s, t);
    forall j: nat | j < 4 && Untouched(t, j) ensures !Holds(Passes(s, t, 0), t[j].hole) {
      NoneLeft(s, t, j);
    }
  }

  /** A numeric user id and absolute paths are enough, and so are the fallbacks built from them. */
  lemma PlainIsEnough(uid: string, home: string, xdgEnv: string, adeEnv: string)
    requires Plain(uid) && Plain(home) && (xdgEnv == "" || Plain(xdgEnv))
    ensures var t := VarTable(uid, home, xdgEnv, adeEnv);
            AllIndependent(t) && (adeEnv == "" || Plain(adeEnv) ==> forall j | 0 <= j < 4 :: Untouched(t, j))
  {
    hide Overlaps, Plain;
    var t := VarTable(uid, home, xdgEnv, adeEnv);
    NoBrace("/run/user/");
    NoBrace("/tmp/ade-");
    FallbackIsPlain("/run/user/", uid, xdgEnv);
    forall k, j: nat | 0 <= k < 3 && j < 4 ensures !Overlaps(t[k].value, t[j].hole) {
      PlainInTable(t[k].value, t, j);
    }
    if adeEnv == "" || Plain(adeEnv) {
      FallbackIsPlain("/tmp/ade-", uid, adeEnv);
      forall j: nat | j < 4 ensures !Overlaps(t[3].value, t[j].hole) {
        PlainInTable(t[3].value, t, j);
      }
    }
  }

  lemma NoBrace(prefix: string)
    requires prefix == "/run/user/" || prefix == "/tmp/ade-"
    ensures '$' !in prefix && '}' !in prefix
  {
  }

  /** Without a foreign character the passes can differ: a user id made of the right letters completes another
      placeholder, and the next pass expands it. */
  lemma LettersAreRescanned(xdgEnv: string, adeEnv: string)
    ensures var t, s := VarTable("OM", "/h", xdgEnv, adeEnv), "${H" + UID + "E}";
            Passes(s, t, 0) == "/h" && Simultaneous(s, t) != "/h"
  {
    var t, s := VarTable("OM", "/h", xdgEnv, adeEnv), "${H" + UID + "E}";
    XdgHole();
    AdeHole();
    hide Passes, ReplaceAll, Simultaneous, IsHole;
    FourPasses(s, t);
    FirstPass(s);
    Replaced(HOME, "/h");
    PathKept(XDG, t[2].value);
    PathKept(ADE, t[3].value);
    NoMatch(s, t);
  }

  lemma PathKept(hole: string, value: string)
    requires IsHole(hole)
    ensures ReplaceAll("/h", hole, value) == "/h"
  {
    PassOver("/h", "", hole, value);
    NothingToReplace(hole, value);
    assert "/h" + "" == "/h";
  }

  lemma NoMatch(s: string, t: Table)
    requires s == "${H" + UID + "E}"
    requires |t| == 4 && t[0].hole == UID && t[1].hole == HOME && t[2].hole == XDG && t[3].hole == ADE
    ensures Simultaneous(s, t) != "/h"
  {
    assert s[2] == 'H' && s[3] == '$';
    assert UID[2] == 'U' && XDG[2] == 'X' && ADE[2] == 'A' && HOME[3] == 'O';
    var k := MatchAt(s, t);
    assert k == 4;
    assert Simultaneous(s, t)[0] == '$';
  }

  lemma NothingToReplace(hole: string, value: string)
    requires hole != []
    ensures ReplaceAll("", hole, value) == ""
  {
  }

  lemma Replaced(hole: string, value: string)
    requires hole != []
    ensures ReplaceAll(hole, hole, value) == value
  {
  }

  lemma FirstPass(s: string)
    requires s == "${H" + UID + "E}"
    ensures ReplaceAll(s, UID, "OM") == HOME
  {
    hide ReplaceAll;
    var tail := UID + "E}";
    assert s[2] == 'H' && UID[2] == 'U';
    PassOne(s, UID, "OM");
    assert s[1..] == "{H" + tail;
    PassOver("{H", tail, UID, "OM");
    Found("E}", UID, "OM");
    PassOver("E}", "", UID, "OM");
    assert "E}" + "" == "E}";
    assert ['$'] + ("{H" + ("OM" + "E}")) == HOME;
  }

  lemma Found(rest: string, hole: string, value: string)
    requires hole != []
    ensures ReplaceAll(hole + rest, hole, value) == value + ReplaceAll(rest, hole, value)
    ensures ReplaceAll("", hole, value) == ""
  {
  }
}

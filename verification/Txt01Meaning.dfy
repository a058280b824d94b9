/** What a TXT01 line means and which inputs are refused, said without the functions that read them. */
module Txt01Meaning {

  import opened Txt01

  const DIGITS := "0123456789"

  // ---- numbers ----

  function Place(c: char): (d: nat)
    requires c in DIGITS
    ensures d < 10 && DIGITS[d] == c
  {
    c as int - '0' as int
  }

  function Pow10(k: nat): (p: nat)
    ensures p > 0
  {
    if k == 0 then 1 else 10 * Pow10(k - 1)
  }

  predicate Digits(s: string) {
    s != [] && forall c | c in s :: c in DIGITS
  }

  /** Each digit times the power of ten of its place. */
  function Decimal(s: string): nat
    requires forall c | c in s :: c in DIGITS
  {
    if s == [] then 0 else Place(s[0]) * Pow10(|s| - 1) + Decimal(s[1..])
  }

  function Signed(sign: string, n: nat): int {
    if sign == "-" then -(n as int) else n
  }

  /** The text is an optional sign and at least one digit, of this decimal value. */
  ghost predicate IsNumber(t: string, n: int) {
    exists sign, ds :: sign in {"", "+", "-"} && Digits(ds) && t == sign + ds && n == Signed(sign, Decimal(ds))
  }

  lemma Regroup(a: nat, b: nat)
    ensures a * (10 * b) == 10 * (a * b)
  {
  }

  lemma {:induction false} DecimalSnoc(s: string, c: char)
    requires c in DIGITS && forall x | x in s :: x in DIGITS
    ensures Decimal(s + [c]) == 10 * Decimal(s) + Place(c)
  {
    if s == [] {
      assert (s + [c])[1..] == [];
    } else {
      assert (s + [c])[1..] == s[1..] + [c];
      DecimalSnoc(s[1..], c);
      Regroup(Place(s[0]), Pow10(|s| - 1));
    }
  }

  lemma DigitChars(c: char)
    ensures IsDigit(c) <==> c in DIGITS
    ensures IsDigit(c) ==> DigitOf(c) == Place(c)
  {
    if IsDigit(c) {
      assert DIGITS[c as int - '0' as int] == c;
    }
  }

  lemma {:induction false} DecimalValue(s: string)
    requires forall c | c in s :: c in DIGITS && IsDigit(c)
    ensures DigitsValue(s) == Decimal(s)
  {
    if s != [] {
      var a, c := s[..|s|-1], s[|s|-1];
      assert s == a + [c];
      DecimalValue(a);
      DecimalSnoc(a, c);
      DigitChars(c);
    }
  }

  lemma ReadNumber(sign: string, ds: string)
    requires sign in {"", "+", "-"} && Digits(ds)
    ensures var n := Signed(sign, Decimal(ds));
            ParseInt(sign + ds) == if -0x8000_0000_0000_0000 <= n < 0x8000_0000_0000_0000 then Some(n) else None
  {
    hide DigitsValue, Decimal;
    forall c: char {
      DigitChars(c);
    }
    var t := sign + ds;
    assert ds[0] in ds;
    assert t[0] == if sign == "" then ds[0] else sign[0];
    assert t[|sign|..] == ds;
    DecimalValue(ds);
  }

  lemma IntIsNumber(t: string, n: Int64)
    requires ParseInt(t) == Some(n)
    ensures IsNumber(t, n)
  {
    hide DigitsValue, Decimal;
    forall c: char {
      DigitChars(c);
    }
    var sign := if t[0] == '-' then "-" else if t[0] == '+' then "+" else "";
    var ds := t[|sign|..];
    assert t == sign + ds;
    DecimalValue(ds);
    assert Digits(ds) && n == Signed(sign, Decimal(ds));
  }

  /** The integer reader accepts exactly the 64-bit numbers. */
  lemma ParseIntMeaning(t: string, n: Int64)
    ensures ParseInt(t) == Some(n) <==> IsNumber(t, n)
  {
    hide DigitsValue, Decimal, ParseInt;
    if ParseInt(t) == Some(n) {
      IntIsNumber(t, n);
    }
    if IsNumber(t, n) {
      var sign, ds :| sign in {"", "+", "-"} && Digits(ds) && t == sign + ds && n == Signed(sign, Decimal(ds));
      ReadNumber(sign, ds);
    }
  }

  // ---- values ----

  /** A trimmed line is read as a string exactly when it is a quote and that string, as a truth value exactly when it is
      one letter, as a number exactly when it is written as one; nothing else is a value. */
  lemma ParseValueMeaning(t: string)
    ensures forall s :: ParseValue(t) == Some(Str(s)) <==> t == ['"'] + s
    ensures ParseValue(t) == Some(Bool(true)) <==> t == "t"
    ensures ParseValue(t) == Some(Bool(false)) <==> t == "f"
    ensures forall n: Int64 :: ParseValue(t) == Some(Int(n)) <==> IsNumber(t, n)
    ensures ParseValue(t).None? <==>
              (t == [] || t[0] != '"') && t != "t" && t != "f" && forall n: Int64 :: !IsNumber(t, n)
  {
    hide ParseInt;
    forall n: Int64
      ensures ParseInt(t) == Some(n) <==> IsNumber(t, n)
      ensures IsNumber(t, n) ==> t != "t" && t != "f" && t != [] && t[0] != '"'
    {
      ParseIntMeaning(t, n);
      if IsNumber(t, n) {
        NumberStart(t, n);
      }
    }
    if t != [] && t[0] == '"' {
      assert t == ['"'] + t[1..];
    }
    var v := ParseInt(t);
    if v.Some? {
      assert IsNumber(t, v.value);
    }
  }

  lemma NumberStart(t: string, n: int)
    requires IsNumber(t, n)
    ensures t != [] && (t[0] in DIGITS || t[0] == '+' || t[0] == '-')
  {
    var sign, ds :| sign in {"", "+", "-"} && Digits(ds) && t == sign + ds && n == Signed(sign, Decimal(ds));
    assert ds[0] in ds;
  }

  // ---- verbs and white space ----

  const VERBS := [
    "start", "stop", "restart", "status", "list-daemons", "list-features", "logs", "shutdown", "list", "reload",
    "prog-start", "prog-stop", "prog-status", "prog-list", "help", "version", "quit" ]

  lemma VerbMeaning(t: string)
    ensures IsVerb(t) <==> t in VERBS
  {
  }

  /** By code points: the characters with the White_Space property of the Unicode Standard. */
  lemma SpaceMeaning(c: char)
    ensures IsSpace(c) <==>
              var n := c as int;
              || 0x09 <= n <= 0x0D || n == 0x20 || n == 0x85 || n == 0xA0 || n == 0x1680 || 0x2000 <= n <= 0x200A
              || n == 0x2028 || n == 0x2029 || n == 0x202F || n == 0x205F || n == 0x3000
  {
  }

  // ---- trimming ----

  predicate Blank(s: string) {
    forall c | c in s :: IsSpace(c)
  }

  /** The line is `t` between white space, and `t` neither begins nor ends with any. */
  ghost predicate Core(line: string, t: string) {
    && (t == [] || (!IsSpace(t[0]) && !IsSpace(t[|t|-1])))
    && exists pre, post :: Blank(pre) && Blank(post) && line == pre + t + post
  }

  lemma {:induction false} TrimLeftMeaning(s: string) returns (pre: string)
    ensures Blank(pre) && s == pre + TrimLeft(s)
    ensures TrimLeft(s) == [] || !IsSpace(TrimLeft(s)[0])
  {
    pre := [];
    if s != [] && IsSpace(s[0]) {
      var p := TrimLeftMeaning(s[1..]);
      pre := [s[0]] + p;
    }
  }

  lemma {:induction false} TrimRightMeaning(s: string) returns (post: string)
    ensures Blank(post) && s == TrimRight(s) + post
    ensures TrimRight(s) == [] || !IsSpace(TrimRight(s)[|TrimRight(s)|-1])
  {
    post := [];
    if s != [] && IsSpace(s[|s|-1]) {
      var p := TrimRightMeaning(s[..|s|-1]);
      post := p + [s[|s|-1]];
    }
  }

  lemma TrimIsCore(line: string)
    ensures Core(line, Trim(line))
  {
    hide TrimLeft, TrimRight, IsSpace;
    var pre := TrimLeftMeaning(line);
    var post := TrimRightMeaning(TrimLeft(line));
    var t := Trim(line);
    assert line == pre + t + post;
    assert t != [] ==> TrimLeft(line)[0] == t[0];
  }

  lemma CoreUnique(line: string, t: string, u: string)
    requires Core(line, t) && Core(line, u)
    ensures t == u
  {
    hide IsSpace;
    var p, q :| Blank(p) && Blank(q) && line == p + t + q;
    var r, s :| Blank(r) && Blank(s) && line == r + u + s;
    Inside(line, p, t, q, r, u, s);
    Inside(line, r, u, s, p, t, q);
    if t != [] {
      assert t == line[|p|..|line| - |q|];
      assert u == line[|r|..|line| - |s|];
    }
  }

  /** A core's first and last letters lie inside every other core. */
  lemma Inside(line: string, p: string, t: string, q: string, r: string, u: string, s: string)
    requires Blank(r) && Blank(s) && line == p + t + q == r + u + s
    requires t == [] || (!IsSpace(t[0]) && !IsSpace(t[|t|-1]))
    ensures t != [] ==> |r| <= |p| && |s| <= |q| && u != []
  {
    hide IsSpace;
    if t != [] {
      assert line[|p|] == t[0] && line[|p| + |t| - 1] == t[|t|-1];
      assert forall i | 0 <= i < |r| :: line[i] == r[i] && r[i] in r;
      assert forall i | 0 <= i < |s| :: line[|r| + |u| + i] == s[i] && s[i] in s;
    }
  }

  lemma TrimMeaning(line: string, t: string)
    ensures Trim(line) == t <==> Core(line, t)
  {
    TrimIsCore(line);
    if Core(line, t) {
      CoreUnique(line, t, Trim(line));
    }
  }

  // ---- refused inputs ----

  /** What is left of the line after trimming is no comment, no verb and no value. */
  ghost predicate Refused(line: string) {
    exists t :: Core(line, t) && t != [] && t[0] != '#' && !IsVerb(t)
                && t[0] != '"' && t != "t" && t != "f" && forall n: Int64 :: !IsNumber(t, n)
  }

  /** The text has this line, and its newline. */
  ghost predicate HasLine(s: string, line: string) {
    '\n' !in line && exists p, q :: CompleteLines(p) && s == p + line + ['\n'] + q
  }

  lemma RefusedMeaning(line: string)
    ensures Refused(line) <==> !Harmless(line) && !IsVerb(Trim(line))
  {
    hide Trim, ParseValue, IsVerb, Core, IsNumber;
    TrimIsCore(line);
    ParseValueMeaning(Trim(line));
    forall t | Core(line, t)
      ensures t == Trim(line)
    {
      TrimMeaning(line, t);
    }
  }

  lemma FirstLine(s: string)
    requires SplitLine(s).Line?
    ensures HasLine(s, SplitLine(s).line)
  {
    assert CompleteLines([]) && s == [] + SplitLine(s).line + ['\n'] + SplitLine(s).rest;
  }

  lemma LaterLine(s: string, line: string)
    requires SplitLine(s).Line? && HasLine(SplitLine(s).rest, line)
    ensures HasLine(s, line)
  {
    hide SplitLine;
    var l, rest := SplitLine(s).line, SplitLine(s).rest;
    var p, q :| CompleteLines(p) && rest == p + line + ['\n'] + q;
    var more := l + ['\n'] + p;
    var tail := line + ['\n'] + q;
    assert rest == p + tail;
    assert s == l + ['\n'] + (p + tail) == more + tail == more + line + ['\n'] + q;
    assert more[|more|-1] == if p == [] then '\n' else p[|p|-1];
    assert CompleteLines(more);
  }

  lemma LineInside(p: string, line: string, q: string)
    requires CompleteLines(p) && '\n' !in line
    ensures HasLine(p + (line + ['\n'] + q), line)
  {
    assert p + (line + ['\n'] + q) == p + line + ['\n'] + q;
  }

  lemma RestComplete(p: string)
    requires p != [] && CompleteLines(p)
    ensures SplitLine(p).Line? && CompleteLines(SplitLine(p).rest)
  {
    assert p[|p|-1] in p;
    var rest := SplitLine(p).rest;
    assert rest == [] || rest[|rest|-1] == p[|p|-1];
  }

  lemma RestOfLines(p: string, line: string, q: string)
    requires p != [] && CompleteLines(p) && '\n' !in line
    ensures SplitLine(p + (line + ['\n'] + q)).Line?
    ensures HasLine(SplitLine(p + (line + ['\n'] + q)).rest, line)
  {
    hide SplitLine, CompleteLines, HasLine;
    RestComplete(p);
    NewlineIn(p);
    SplitAppend(p, line + ['\n'] + q);
    LineInside(SplitLine(p).rest, line, q);
  }

  lemma NewlineIn(p: string)
    requires p != [] && CompleteLines(p)
    ensures '\n' in p
  {
    assert p[|p|-1] in p;
  }

  lemma EveryLine(s: string, line: string)
    requires HasLine(s, line)
    ensures SplitLine(s).Line?
    ensures line == SplitLine(s).line || HasLine(SplitLine(s).rest, line)
  {
    var p, q :| CompleteLines(p) && s == p + line + ['\n'] + q;
    hide SplitLine, HasLine;
    if p == [] {
      assert s == line + ['\n'] + q;
      SplitExact(line, q);
    } else {
      assert s == p + (line + ['\n'] + q);
      RestOfLines(p, line, q);
    }
  }

  ghost predicate SomeRefused(s: string) {
    exists line :: HasLine(s, line) && Refused(line)
  }

  lemma RefusedStep(s: string)
    ensures SomeRefused(s) <==>
              SplitLine(s).Line? && (Refused(SplitLine(s).line) || SomeRefused(SplitLine(s).rest))
  {
    hide HasLine, Refused, SplitLine;
    if SplitLine(s).Line? {
      FirstLine(s);
      if SomeRefused(SplitLine(s).rest) {
        var line :| HasLine(SplitLine(s).rest, line) && Refused(line);
        LaterLine(s, line);
      }
    }
    if SomeRefused(s) {
      var line :| HasLine(s, line) && Refused(line);
      EveryLine(s, line);
    }
  }

  lemma {:induction false} RefusedFrom(s: string, stack: seq<Value>, done: seq<Command>)
    ensures ReadFrom(s, stack, done).Failed? <==> SomeRefused(s)
    decreases |s|
  {
    RefusedStep(s);
    match SplitLine(s)
    case NoLine =>
    case Line(line, rest) =>
      hide Trim, ParseValue, IsVerb, SplitLine, SomeRefused, Refused;
      RefusedMeaning(line);
      var t := Trim(line);
      if t == [] || t[0] == '#' {
        RefusedFrom(rest, stack, done);
      } else if IsVerb(t) {
        RefusedFrom(rest, [], done + [Command(t, stack)]);
      } else if ParseValue(t).Some? {
        RefusedFrom(rest, stack + [ParseValue(t).value], done);
      }
  }

  /** An input is refused exactly when one of its complete lines is: neither blank nor a comment, no verb, no quoted
      string, no truth value and no 64-bit number. */
  lemma ReadFailsIff(s: string)
    ensures ReadAll(s).Failed? <==> exists line :: HasLine(s, line) && Refused(line)
  {
    RefusedFrom(s, [], []);
  }
}

/** The `%` codes of a desktop entry's Exec key (section 7 of the Desktop Entry Specification 1.5). */
module DesktopExec {
  import opened Bytes

  predicate IsAlpha(b: Byte) {
    'a' as int <= b <= 'z' as int || 'A' as int <= b <= 'Z' as int
  }

  predicate IsAlphaRune(r: char) {
    'a' <= r <= 'z' || 'A' <= r <= 'Z'
  }

  /** The UTF-8 bytes of one character. */
  function Utf8(c: char): (b: Text)
    ensures b != []
    ensures c as int < 0x80 ==> b == [c as int]
    ensures c as int >= 0x80 ==> b[0] >= 0x80
  {
    var n := c as int;
    if n < 0x80 then [n]
    else if n < 0x800 then [0xC0 + n / 64, 0x80 + n % 64]
    else if n < 0x10000 then [0xE0 + n / 4096, 0x80 + n / 64 % 64, 0x80 + n % 64]
    else [0xF0 + n / 262144, 0x80 + n / 4096 % 64, 0x80 + n / 64 % 64, 0x80 + n % 64]
  }

  function Encode(s: string): Text {
    if s == [] then [] else Utf8(s[0]) + Encode(s[1..])
  }

  /** One left-to-right pass: `%%` is a percent sign, `%` and an ASCII letter vanish, any other `%` stays. */
  function Strip(s: string): string {
    if s == [] then []
    else if s[0] == '%' && |s| > 1 && s[1] == '%' then ['%'] + Strip(s[2..])
    else if s[0] == '%' && |s| > 1 && IsAlphaRune(s[1]) then Strip(s[2..])
    else [s[0]] + Strip(s[1..])
  }

  lemma {:induction false} EncodeConcat(a: string, b: string)
    ensures Encode(a + b) == Encode(a) + Encode(b)
  {
    hide Utf8;
    if a == [] {
      assert a + b == b;
    } else {
      EncodeConcat(a[1..], b);
      assert (a + b)[1..] == a[1..] + b && (a + b)[0] == a[0];
      assert Encode(a + b) == Utf8(a[0]) + Encode(a[1..] + b);
      assert Utf8(a[0]) + (Encode(a[1..]) + Encode(b)) == Encode(a) + Encode(b);
    }
  }

  /** Byte `|Encode(s[..k])|` is the first byte of character `k`, and character `k + 1` starts `|Utf8(s[k])|` bytes
      on. */
  lemma ByteAt(s: string, k: nat)
    requires k < |s|
    ensures var i := |Encode(s[..k])|;
            && i < |Encode(s)| && Encode(s)[i] == Utf8(s[k])[0]
            && |Encode(s[..k+1])| == i + |Utf8(s[k])|
  {
    hide Utf8;
    EncodeConcat(s[..k], s[k..]);
    assert s == s[..k] + s[k..];
    EncodeConcat(s[..k], [s[k]]);
    assert s[..k+1] == s[..k] + [s[k]];
    assert Encode([s[k]]) == Utf8(s[k]) + Encode([]);
  }

  /** A percent sign is one byte, so the next byte starts the next character. */
  lemma AfterPercent(s: string, k: nat)
    requires k < |s| && s[k] == '%'
    ensures var i := |Encode(s[..k])|;
            && (i + 1 < |Encode(s)| <==> k + 1 < |s|)
            && (k + 1 < |s| ==> Encode(s)[i + 1] == Utf8(s[k+1])[0])
  {
    hide Encode;
    ByteAt(s, k);
    if k + 1 < |s| {
      ByteAt(s, k + 1);
    } else {
      assert s[..k+1] == s;
    }
  }

  /** What is left to do at character `k`, given the skip flag. */
  function Rest(s: string, k: nat, skipNext: bool): string
    requires k <= |s|
  {
    if skipNext && k < |s| then Strip(s[k+1..]) else Strip(s[k..])
  }

  /** Where the flag is set, a percent sign came before and a percent sign or a letter comes now. */
  predicate Flagged(s: string, k: nat, skipNext: bool) {
    skipNext ==> 0 < k < |s| && s[k-1] == '%' && (s[k] == '%' || IsAlphaRune(s[k]))
  }

  lemma FirstByte(c: char)
    ensures Utf8(c)[0] == '%' as int <==> c == '%'
    ensures IsAlpha(Utf8(c)[0]) <==> IsAlphaRune(c)
  {
  }

  /** One turn of the loop, on what is left to do. */
  lemma TurnOf(s: string, k: nat)
    requires k < |s|
    ensures Rest(s, k, true) == Rest(s, k + 1, false)
    ensures s[k] == '%' && k + 1 < |s| && s[k+1] == '%' ==> Rest(s, k, false) == ['%'] + Rest(s, k + 1, true)
    ensures s[k] == '%' && k + 1 < |s| && IsAlphaRune(s[k+1]) ==> Rest(s, k, false) == Rest(s, k + 1, true)
    ensures !(s[k] == '%' && k + 1 < |s| && (s[k+1] == '%' || IsAlphaRune(s[k+1]))) ==>
              Rest(s, k, false) == [s[k]] + Rest(s, k + 1, false)
  {
  }

  /** The loop with its `skipNext` flag is the one pass. `i` is the byte index of character `k`; the look-ahead
      and the look-back read bytes. The branch that writes while skipping is never taken. */
  method StripDesktopExecPlaceholders(exec: string) returns (result: string)
    ensures result == Strip(exec)
  {
    hide Utf8, Encode, Rest;
    var bytes := Encode(exec);
    result := [];
    var skipNext, next, k := false, 0, 0;
    Begin(exec);
    while k < |exec|
      invariant k <= |exec| && next == |Encode(exec[..k])|
      invariant Flagged(exec, k, skipNext)
      invariant result + Rest(exec, k, skipNext) == Strip(exec)
    {
      var i, r := next, exec[k];
      ByteAt(exec, k);
      TurnOf(exec, k);
      FirstByte(r);
      next, k := i + |Utf8(r)|, k + 1;
      if skipNext {
        skipNext := false;
        if i > 0 && bytes[i-1] == '%' as int {
          if r != '%' && !IsAlphaRune(r) {
            assert false;
            result := result + ['%'] + [r];
          }
        }
        continue;
      }
      if r == '%' {
        AfterPercent(exec, k - 1);
        if i + 1 < |bytes| {
          FirstByte(exec[k]);
          if bytes[i+1] == '%' as int {
            result := result + ['%'];
            skipNext := true;
            continue;
          }
          if IsAlpha(bytes[i+1]) {
            skipNext := true;
            continue;
          }
        }
      }
      result := result + [r];
    }
    Finish(exec);
  }

  lemma Begin(s: string)
    ensures |Encode(s[..0])| == 0 && Rest(s, 0, false) == Strip(s)
  {
  }

  lemma Finish(s: string)
    ensures Rest(s, |s|, false) == []
  {
  }

  /** Every `%` doubled. */
  function Double(s: string): string {
    if s == [] then [] else (if s[0] == '%' then "%%" else [s[0]]) + Double(s[1..])
  }

  /** Doubling protects any text: stripping gives it back. */
  lemma {:induction false} DoubleThenStrip(s: string)
    ensures Strip(Double(s)) == s
  {
    if s != [] {
      DoubleThenStrip(s[1..]);
      var d := Double(s);
      if s[0] == '%' {
        assert d[2..] == Double(s[1..]);
      } else {
        assert d[1..] == Double(s[1..]);
      }
      assert s == [s[0]] + s[1..];
    }
  }

  /** A two-character code starts here. */
  predicate CodeAt(s: string, i: nat) {
    i + 1 < |s| && s[i] == '%' && (s[i+1] == '%' || IsAlphaRune(s[i+1]))
  }

  predicate HasCode(s: string) {
    exists i | 0 <= i < |s| :: CodeAt(s, i)
  }

  lemma HasCodeCons(s: string)
    requires s != []
    ensures HasCode(s) <==> CodeAt(s, 0) || HasCode(s[1..])
  {
    if i :| 0 <= i < |s| && CodeAt(s, i) && i > 0 {
      assert CodeAt(s[1..], i - 1);
    }
    if i :| 0 <= i < |s[1..]| && CodeAt(s[1..], i) {
      assert CodeAt(s, i + 1);
    }
  }

  /** Text is left alone exactly when it holds no code, and shrinks otherwise. */
  lemma {:induction false} UnchangedIffNoCode(s: string)
    ensures Strip(s) == s <==> !HasCode(s)
    ensures |Strip(s)| <= |s|
    ensures HasCode(s) ==> |Strip(s)| < |s|
  {
    if s != [] {
      HasCodeCons(s);
      UnchangedIffNoCode(s[1..]);
      if CodeAt(s, 0) {
        UnchangedIffNoCode(s[2..]);
      } else {
        assert Strip(s) == [s[0]] + Strip(s[1..]);
        assert s == [s[0]] + s[1..];
      }
    }
  }

  /** A scan of the text for what a first pass leaves behind: a letter or another percent sign coming to stand right
      after a kept `%%`. `after` says that the last character kept came from a doubled percent sign. */
  predicate Reopens(s: string, after: bool) {
    if s == [] then false
    else if CodeAt(s, 0) && s[1] == '%' then after || Reopens(s[2..], true)
    else if CodeAt(s, 0) then Reopens(s[2..], after)
    else (after && (s[0] == '%' || IsAlphaRune(s[0]))) || Reopens(s[1..], false)
  }

  lemma FirstKept(c: char, s: string)
    ensures HasCode([c] + s) <==> (c == '%' && s != [] && (s[0] == '%' || IsAlphaRune(s[0]))) || HasCode(s)
  {
    HasCodeCons([c] + s);
    assert ([c] + s)[1..] == s;
  }

  lemma {:induction false} CodeLeft(s: string)
    ensures HasCode(Strip(s)) <==> Reopens(s, false)
    ensures HasCode(['%'] + Strip(s)) <==> Reopens(s, true)
  {
    hide HasCode;
    NoCodeIn([]);
    if s == [] {
      FirstKept('%', []);
    } else if CodeAt(s, 0) {
      CodeLeft(s[2..]);
      FirstKept('%', Strip(s));
    } else {
      CodeLeft(s[1..]);
      assert Strip(s) == [s[0]] + Strip(s[1..]);
      assert |s| > 1 && s[0] == '%' ==> Strip(s[1..]) == [s[1]] + Strip(s[1..][1..]);
      FirstKept('%', Strip(s));
      FirstKept(s[0], Strip(s[1..]));
    }
  }

  lemma NoCodeIn(s: string)
    requires |s| <= 1
    ensures !HasCode(s)
  {
  }

  /** Stripping twice is stripping once exactly when the scan finds nothing that reopens a code. */
  lemma StripTwiceIff(s: string)
    ensures Strip(Strip(s)) == Strip(s) <==> !Reopens(s, false)
  {
    CodeLeft(s);
    UnchangedIffNoCode(Strip(s));
  }

  /** One pass is not always enough: a doubled percent sign before a letter leaves a code behind. */
  lemma StripTwiceDiffers()
    ensures Strip("%%f") == "%f" && Strip(Strip("%%f")) == ""
  {
  }
}

/** The ring buffer of log lines, against "the last maxSize lines appended since the last clear". */
module LogBuffer {

  datatype Line = Line(text: string)

  const BLANK := Line("")

  const DEFAULT_TAIL := 50

  datatype Op = Append(line: Line) | Clear

  /** The last `m` elements, or all of them. */
  function LastN(s: seq<Line>, m: nat): seq<Line> {
    if |s| <= m then s else s[|s| - m..]
  }

  function FirstN(s: seq<Line>, m: nat): seq<Line> {
    if |s| <= m then s else s[..m]
  }

  /** The lines appended since the last clear. */
  function SinceClear(ops: seq<Op>): seq<Line> {
    if ops == [] then []
    else
      match ops[|ops|-1]
      case Append(line) => SinceClear(ops[..|ops|-1]) + [line]
      case Clear => []
  }

  /** What one append does to the retained lines. */
  function Push(c: seq<Line>, line: Line, m: nat): seq<Line>
    requires m > 0
  {
    LastN(c + [line], m)
  }

  /** The retained lines after a whole history of calls. */
  function Replay(ops: seq<Op>, m: nat): seq<Line>
    requires m > 0
  {
    if ops == [] then []
    else
      match ops[|ops|-1]
      case Append(line) => Push(Replay(ops[..|ops|-1], m), line, m)
      case Clear => []
  }

  /** After any history the buffer holds the last `m` lines appended since the last clear. */
  lemma {:induction false} ReplayIsWindow(ops: seq<Op>, m: nat)
    requires m > 0
    ensures Replay(ops, m) == LastN(SinceClear(ops), m)
  {
    if ops != [] && ops[|ops|-1].Append? {
      ReplayIsWindow(ops[..|ops|-1], m);
      var s, line := SinceClear(ops[..|ops|-1]), ops[|ops|-1].line;
      assert LastN(LastN(s, m) + [line], m) == LastN(s + [line], m);
    }
  }

  function TailCount(n: int, size: nat): nat {
    var k: nat := if n <= 0 then DEFAULT_TAIL else n;
    if k > size then size else k
  }

  function Distinct(size: nat): (c: seq<Line>)
    ensures |c| == size && forall i | 0 <= i < size :: |c[i].text| == i
  {
    seq(size, i requires i >= 0 => Line(seq(i, j => 'x')))
  }

  /** Tail yields the oldest lines. That is the documented "last n lines" for every content of the buffer exactly
      when at least as many lines are asked for as are retained. */
  lemma TailIsDocumentedIff(n: int, size: nat)
    ensures (forall c: seq<Line> | |c| == size :: FirstN(c, TailCount(n, size)) == LastN(c, TailCount(n, size)))
              <==> (if n <= 0 then DEFAULT_TAIL else n) >= size
  {
    var k := TailCount(n, size);
    var c := Distinct(size);
    if k < size {
      assert FirstN(c, k)[0] == c[0] && LastN(c, k)[0] == c[size - k];
    }
  }

  class LogBuffer {
    const lines: array<Line>
    const maxSize: nat
    var pos: nat
    var full: bool

    ghost predicate Valid()
      reads this
    {
      maxSize > 0 && lines.Length == maxSize && pos < maxSize
    }

    /** The retained lines, oldest first. */
    function Contents(): (c: seq<Line>)
      requires Valid()
      reads this, lines
      ensures |c| == if full then maxSize else pos
    {
      if full then lines[pos..] + lines[..pos] else lines[..pos]
    }

    constructor (maxSize: int)
      ensures Valid() && fresh(lines) && Contents() == []
      ensures this.maxSize == if maxSize <= 0 then 1 else maxSize
    {
      var size := if maxSize <= 0 then 1 else maxSize;
      this.lines := new Line[size](_ => BLANK);
      this.maxSize := size;
      this.pos, this.full := 0, false;
    }

    method Append(line: Line)
      requires Valid()
      modifies this, lines
      ensures Valid() && Contents() == Push(old(Contents()), line, maxSize)
    {
      ghost var before := Contents();
      lines[pos] := line;
      assert !full ==> lines[..pos+1] == before + [line];
      assert full ==> lines[pos+1..] + lines[..pos] == before[1..];
      pos := pos + 1;
      if pos >= maxSize {
        pos := 0;
        full := true;
      }
    }

    method Tail(n: int) returns (result: array<Line>)
      requires Valid()
      ensures fresh(result) && result[..] == FirstN(Contents(), TailCount(n, |Contents()|))
      ensures var k := if n <= 0 then 50 else n; result.Length == if k < |Contents()| then k else |Contents()|
    {
      var k := if n <= 0 then DEFAULT_TAIL else n;
      var size := if full then maxSize else pos;
      if k > size {
        k := size;
      }
      result := new Line[k](_ => BLANK);
      var i := 0;
      while i < k
        invariant i <= k
        invariant forall j | 0 <= j < i :: result[j] == Contents()[j]
      {
        var idx := pos - size + i;
        if idx < 0 {
          idx := idx + maxSize;
        }
        if idx >= maxSize {
          idx := idx - maxSize;
        }
        result[i] := lines[idx];
        i := i + 1;
      }
    }

    method Len() returns (n: nat)
      requires Valid()
      ensures n == |Contents()|
    {
      if full {
        return maxSize;
      }
      return pos;
    }

    method Clear()
      requires Valid()
      modifies this, lines
      ensures Valid() && Contents() == [] && forall i | 0 <= i < maxSize :: lines[i] == BLANK
    {
      pos := 0;
      full := false;
      for i := 0 to lines.Length
        invariant pos == 0 && !full
        invariant forall j | 0 <= j < i :: lines[j] == BLANK
      {
        lines[i] := BLANK;
      }
    }
  }
}

/** The TXT01 text protocol: a postfix value stack, one item a line, ended by a command verb. */
module Txt01 {

  type Int64 = x: int | -0x8000_0000_0000_0000 <= x < 0x8000_0000_0000_0000

  datatype Value = Str(s: string) | Int(n: Int64) | Bool(b: bool)

  datatype Command = Command(name: string, args: seq<Value>)

  datatype Option<T> = None | Some(value: T)

  /** The outcome of reading one command: end of input, a line that is no value, or a command. */
  datatype Item = Eof | Bad | Got(command: Command)

  datatype All = Failed | Commands(commands: seq<Command>)

  predicate IsVerb(t: string) {
    t in {
      "start", "stop", "restart", "status", "list-daemons", "list-features", "logs", "shutdown", "list", "reload",
      "prog-start", "prog-stop", "prog-status", "prog-list", "help", "version", "quit" }
  }

  // ---- lines ----

  /** Unicode white space, as trimmed from both ends of a line. */
  predicate IsSpace(c: char) {
    c in {' ', '\t', '\n', '\U{0B}', '\U{0C}', '\r', '\U{85}', '\U{A0}', '\U{1680}', '\U{2028}', '\U{2029}',
              '\U{202F}', '\U{205F}', '\U{3000}'}
    || '\U{2000}' <= c <= '\U{200A}'
  }

  function TrimLeft(s: string): string {
    if s != [] && IsSpace(s[0]) then TrimLeft(s[1..]) else s
  }

  function TrimRight(s: string): string {
    if s != [] && IsSpace(s[|s|-1]) then TrimRight(s[..|s|-1]) else s
  }

  function Trim(s: string): string {
    TrimRight(TrimLeft(s))
  }

  /** The first line without its newline, and what follows it. */
  datatype Split = NoLine | Line(line: string, rest: string)

  function SplitLine(s: string): (r: Split)
    ensures r.Line? ==> '\n' !in r.line && s == r.line + ['\n'] + r.rest
    ensures r.NoLine? <==> '\n' !in s
  {
    if s == [] then NoLine
    else if s[0] == '\n' then
      assert s == [] + ['\n'] + s[1..];
      Line([], s[1..])
    else
      assert s == [s[0]] + s[1..];
      match SplitLine(s[1..])
      case NoLine => NoLine
      case Line(l, rest) =>
        assert s == [s[0]] + (l + ['\n'] + rest) == ([s[0]] + l) + ['\n'] + rest;
        Line([s[0]] + l, rest)
  }

  /** A line the parser skips. */
  predicate Skipped(line: string) {
    var t := Trim(line);
    t == [] || t[0] == '#'
  }

  // ---- values ----

  predicate IsDigit(c: char) {
    '0' <= c <= '9'
  }

  function DigitOf(c: char): (d: nat)
    requires IsDigit(c)
    ensures d < 10
  {
    c as int - '0' as int
  }

  function DigitsValue(s: string): nat
    requires forall c | c in s :: IsDigit(c)
  {
    if s == [] then 0
    else
      assert s[|s|-1] in s;
      10 * DigitsValue(s[..|s|-1]) + DigitOf(s[|s|-1])
  }

  /** strconv.ParseInt with base 10 and 64 bits: an optional sign, digits, and the range check. */
  function ParseInt(t: string): Option<Int64> {
    var digits := if t != [] && (t[0] == '-' || t[0] == '+') then t[1..] else t;
    if digits == [] || exists c | c in digits :: !IsDigit(c) then None
    else
      var n: int := if t[0] == '-' then -(DigitsValue(digits) as int) else DigitsValue(digits) as int;
      if -0x8000_0000_0000_0000 <= n < 0x8000_0000_0000_0000 then Some(n) else None
  }

  function ParseValue(t: string): Option<Value> {
    if t != [] && t[0] == '"' then Some(Str(t[1..]))
    else if t == "t" then Some(Bool(true))
    else if t == "f" then Some(Bool(false))
    else match ParseInt(t) case Some(n) => Some(Int(n)) case None => None
  }

  // ---- reading ----

  /** One call of the parser: an unterminated last line is never used, whatever is on the stack. */
  function NextCommand(s: string, stack: seq<Value>): (Item, string)
    decreases |s|
  {
    match SplitLine(s)
    case NoLine => (Eof, [])
    case Line(line, rest) =>
      var t := Trim(line);
      if t == [] || t[0] == '#' then NextCommand(rest, stack)
      else if IsVerb(t) then (Got(Command(t, stack)), rest)
      else
        match ParseValue(t)
        case None => (Bad, rest)
        case Some(v) => NextCommand(rest, stack + [v])
  }

  /** The whole input in one pass. */
  function ReadFrom(s: string, stack: seq<Value>, done: seq<Command>): All
    decreases |s|
  {
    match SplitLine(s)
    case NoLine => Commands(done)
    case Line(line, rest) =>
      var t := Trim(line);
      if t == [] || t[0] == '#' then ReadFrom(rest, stack, done)
      else if IsVerb(t) then ReadFrom(rest, [], done + [Command(t, stack)])
      else
        match ParseValue(t)
        case None => Failed
        case Some(v) => ReadFrom(rest, stack + [v], done)
  }

  function ReadAll(s: string): All {
    ReadFrom(s, [], [])
  }

  lemma {:induction false} NextShrinks(s: string, stack: seq<Value>)
    ensures NextCommand(s, stack).0.Got? ==> |NextCommand(s, stack).1| < |s|
    decreases |s|
  {
    match SplitLine(s)
    case NoLine =>
    case Line(line, rest) =>
      hide Trim, ParseValue, IsVerb, SplitLine;
      NextShrinks(rest, stack);
      var v := ParseValue(Trim(line));
      if v.Some? {
        NextShrinks(rest, stack + [v.value]);
      }
  }

  /** Reading command by command is the one pass. */
  lemma {:induction false} NextIsPass(s: string, stack: seq<Value>, done: seq<Command>)
    ensures ReadFrom(s, stack, done) ==
              match NextCommand(s, stack).0
              case Eof => Commands(done)
              case Bad => Failed
              case Got(c) => ReadFrom(NextCommand(s, stack).1, [], done + [c])
    decreases |s|
  {
    match SplitLine(s)
    case NoLine =>
    case Line(line, rest) =>
      hide Trim, ParseValue, IsVerb, SplitLine;
      NextIsPass(rest, stack, done);
      var v := ParseValue(Trim(line));
      if v.Some? {
        NextIsPass(rest, stack + [v.value], done);
      }
  }

  class Parser {
    var input: string
    const version: string

    constructor (input: string, version: string)
      ensures this.input == input && this.version == version
    {
      this.input, this.version := input, version;
    }

    method ParseCommand() returns (item: Item)
      modifies this
      ensures (item, input) == NextCommand(old(input), [])
    {
      var stack: seq<Value> := [];
      while true
        invariant NextCommand(input, stack) == NextCommand(old(input), [])
        decreases |input|
      {
        var split := SplitLine(input);
        if split.NoLine? {
          input := [];
          return Eof;
        }
        input := split.rest;
        var line := Trim(split.line);
        if line == [] || line[0] == '#' {
          continue;
        }
        if IsVerb(line) {
          return Got(Command(line, stack));
        }
        var value := ParseValue(line);
        if value.None? {
          return Bad;
        }
        stack := stack + [value.value];
      }
    }

    method ReadAllCommands() returns (all: All)
      modifies this
      ensures all == ReadAll(old(input))
    {
      var commands: seq<Command> := [];
      while true
        invariant ReadFrom(input, [], commands) == ReadAll(old(input))
        decreases |input|
      {
        NextIsPass(input, [], commands);
        NextShrinks(input, []);
        var item := ParseCommand();
        match item
        case Eof => return Commands(commands);
        case Bad => return Failed;
        case Got(c) => commands := commands + [c];
      }
    }
  }

  // ---- skipped lines ----

  lemma {:induction false} SplitAppend(p: string, r: string)
    requires '\n' in p
    ensures SplitLine(p).Line? && SplitLine(p + r) == Line(SplitLine(p).line, SplitLine(p).rest + r)
  {
    assert (p + r)[1..] == p[1..] + r;
    if p[0] != '\n' {
      assert p == [p[0]] + p[1..];
      SplitAppend(p[1..], r);
    }
  }

  /** The two inputs are read alike whatever came before. */
  ghost predicate ReadAlike(a: string, b: string) {
    forall stack, done :: ReadFrom(a, stack, done) == ReadFrom(b, stack, done)
  }

  /** Where reading stands after some complete lines. */
  datatype Progress = Broken | At(stack: seq<Value>, done: seq<Command>)

  function ReadLines(p: string, stack: seq<Value>, done: seq<Command>): Progress
    decreases |p|
  {
    match SplitLine(p)
    case NoLine => At(stack, done)
    case Line(line, rest) =>
      var t := Trim(line);
      if t == [] || t[0] == '#' then ReadLines(rest, stack, done)
      else if IsVerb(t) then ReadLines(rest, [], done + [Command(t, stack)])
      else
        match ParseValue(t)
        case None => Broken
        case Some(v) => ReadLines(rest, stack + [v], done)
  }

  predicate CompleteLines(p: string) {
    p == [] || p[|p|-1] == '\n'
  }

  function ReadOn(at: Progress, a: string): All {
    match at
    case Broken => Failed
    case At(stack, done) => ReadFrom(a, stack, done)
  }

  /** Complete lines are read for good before anything that follows them. */
  lemma {:induction false} ReadThrough(p: string, a: string, stack: seq<Value>, done: seq<Command>)
    requires CompleteLines(p)
    ensures ReadFrom(p + a, stack, done) == ReadOn(ReadLines(p, stack, done), a)
    decreases |p|
  {
    hide Trim, ParseValue, IsVerb, SplitLine;
    if p == [] {
      assert p + a == a;
      EmptyInput();
    } else {
      SplitAppend(p, a);
      var l, rest := SplitLine(p).line, SplitLine(p).rest;
      assert rest == [] || rest[|rest|-1] == p[|p|-1];
      var t := Trim(l);
      if t == [] || t[0] == '#' {
        ReadThrough(rest, a, stack, done);
      } else if IsVerb(t) {
        ReadThrough(rest, a, [], done + [Command(t, stack)]);
      } else if ParseValue(t).Some? {
        ReadThrough(rest, a, stack + [ParseValue(t).value], done);
      }
    }
  }

  lemma EmptyInput()
    ensures SplitLine([]).NoLine?
  {
  }

  lemma {:induction false} PrefixCongruence(p: string, a: string, b: string, stack: seq<Value>, done: seq<Command>)
    requires CompleteLines(p) && ReadAlike(a, b)
    ensures ReadFrom(p + a, stack, done) == ReadFrom(p + b, stack, done)
  {
    hide ReadFrom, ReadLines;
    ReadThrough(p, a, stack, done);
    ReadThrough(p, b, stack, done);
  }

  // ---- an unterminated last line ----

  /** A line that ends no command and breaks nothing. */
  predicate Harmless(line: string) {
    Skipped(line) || (!IsVerb(Trim(line)) && ParseValue(Trim(line)).Some?)
  }

  /** Text after the last newline is never used. */
  lemma TailDropped(p: string, tail: string)
    requires CompleteLines(p) && '\n' !in tail
    ensures ReadAll(p + tail) == ReadAll(p)
  {
    hide ReadLines, SplitLine;
    ReadThrough(p, tail, [], []);
    ReadThrough(p, [], [], []);
    EmptyInput();
    assert p + [] == p;
    assert SplitLine(tail).NoLine?;
  }

  lemma TerminatedTail(tail: string, stack: seq<Value>, done: seq<Command>)
    requires '\n' !in tail
    ensures ReadFrom(tail, stack, done) == Commands(done)
    ensures ReadFrom(tail + ['\n'], stack, done) == Commands(done) <==> Harmless(tail)
  {
    hide Trim, ParseValue, IsVerb, SplitLine;
    assert SplitLine(tail).NoLine?;
    SplitExact(tail, []);
    EmptyInput();
    assert tail + ['\n'] + [] == tail + ['\n'];
    var t := Trim(tail);
    assert forall v :: ReadFrom([], stack + [v], done) == Commands(done);
    assert ReadFrom([], [], done + [Command(t, stack)]) == Commands(done + [Command(t, stack)]);
    assert |done + [Command(t, stack)]| > |done|;
  }

  /** So the missing newline makes a difference exactly when the lines before it are readable and the last line is a
      verb, whose command is then lost, or no value, whose error is then missed. */
  lemma TailLossIff(p: string, tail: string)
    requires CompleteLines(p) && '\n' !in tail
    ensures ReadAll(p + tail) == ReadAll(p + tail + ['\n']) <==> ReadAll(p).Failed? || Harmless(tail)
  {
    hide ReadLines, ReadFrom, Harmless;
    TailDropped(p, tail);
    ReadThrough(p, tail, [], []);
    ReadThrough(p, tail + ['\n'], [], []);
    assert p + tail + ['\n'] == p + (tail + ['\n']);
    var at := ReadLines(p, [], []);
    if at.At? {
      TerminatedTail(tail, at.stack, at.done);
    }
  }

  /** One call of the parser: the values read so far do not turn an unterminated line, or the end of the input, into a
      command. */
  lemma {:induction false} NextDropsTail(p: string, tail: string, stack: seq<Value>)
    requires CompleteLines(p) && '\n' !in tail
    ensures NextCommand(p + tail, stack).0 == NextCommand(p, stack).0
    ensures NextCommand(p, stack).0.Got? ==> NextCommand(p + tail, stack).1 == NextCommand(p, stack).1 + tail
    decreases |p|
  {
    hide Trim, ParseValue, IsVerb, SplitLine;
    if p == [] {
      assert p + tail == tail;
      assert SplitLine(tail).NoLine?;
      EmptyInput();
    } else {
      SplitAppend(p, tail);
      var l, rest := SplitLine(p).line, SplitLine(p).rest;
      assert rest == [] || rest[|rest|-1] == p[|p|-1];
      var t := Trim(l);
      if t == [] || t[0] == '#' {
        NextDropsTail(rest, tail, stack);
      } else if !IsVerb(t) && ParseValue(t).Some? {
        NextDropsTail(rest, tail, stack + [ParseValue(t).value]);
      }
    }
  }

  lemma {:induction false} SplitExact(line: string, q: string)
    requires '\n' !in line
    ensures SplitLine(line + ['\n'] + q) == Line(line, q)
  {
    if line == [] {
      assert ([] + ['\n'] + q)[1..] == q;
    } else {
      var s, l := line + ['\n'] + q, line[1..];
      assert line == [line[0]] + l;
      assert s[1..] == l + ['\n'] + q;
      SplitExact(l, q);
    }
  }

  lemma SkippedAlike(line: string, q: string)
    requires '\n' !in line && Skipped(line)
    ensures ReadAlike(line + ['\n'] + q, q)
  {
    hide Trim, ParseValue, IsVerb, SplitLine;
    SplitExact(line, q);
  }

  /** Blank and comment lines change nothing, wherever between lines they are put, in any input. */
  lemma SkippedLineIrrelevant(p: string, line: string, q: string)
    requires CompleteLines(p) && '\n' !in line && Skipped(line)
    ensures ReadAll(p + line + ['\n'] + q) == ReadAll(p + q)
  {
    hide Skipped, ReadFrom, ReadAlike;
    var extra := line + ['\n'] + q;
    SkippedAlike(line, q);
    PrefixCongruence(p, extra, q, [], []);
    assert p + line + ['\n'] + q == p + extra;
  }

  // ---- printing ----

  function DigitChar(d: nat): (c: char)
    requires d < 10
    ensures IsDigit(c) && DigitOf(c) == d
  {
    (d + '0' as int) as char
  }

  function PrintNat(n: nat): (s: string)
    ensures s != [] && forall c | c in s :: IsDigit(c)
  {
    if n < 10 then [DigitChar(n)] else PrintNat(n / 10) + [DigitChar(n % 10)]
  }

  function PrintInt(n: Int64): string {
    if n < 0 then ['-'] + PrintNat(-(n as int)) else PrintNat(n)
  }

  /** A value in the documented line format. */
  function PrintValue(v: Value): string {
    match v
    case Str(s) => ['"'] + s
    case Int(n) => PrintInt(n)
    case Bool(b) => if b then "t" else "f"
  }

  function PrintArgs(args: seq<Value>): string {
    if args == [] then [] else PrintValue(args[0]) + ['\n'] + PrintArgs(args[1..])
  }

  function PrintCommand(c: Command): string {
    PrintArgs(c.args) + c.name + ['\n']
  }

  function PrintAll(cmds: seq<Command>): string {
    if cmds == [] then [] else PrintCommand(cmds[0]) + PrintAll(cmds[1..])
  }

  /** A string that survives being a line: no newline in it, no white space at its end. */
  predicate CleanValue(v: Value) {
    v.Str? ==> '\n' !in v.s && (v.s == [] || !IsSpace(v.s[|v.s|-1]))
  }

  predicate CleanArgs(args: seq<Value>) {
    forall i | 0 <= i < |args| :: CleanValue(args[i])
  }

  predicate CleanCommand(c: Command) {
    IsVerb(c.name) && CleanArgs(c.args)
  }

  predicate CleanCommands(cmds: seq<Command>) {
    forall i | 0 <= i < |cmds| :: CleanCommand(cmds[i])
  }

  lemma {:induction false} PrintNatValue(n: nat)
    ensures DigitsValue(PrintNat(n)) == n
  {
    var s := PrintNat(n);
    if n >= 10 {
      PrintNatValue(n / 10);
      assert s[..|s|-1] == PrintNat(n / 10);
    } else {
      assert s[..0] == [];
    }
  }

  lemma ParsePrintInt(n: Int64)
    ensures ParseInt(PrintInt(n)) == Some(n)
    ensures PrintInt(n) != [] && (IsDigit(PrintInt(n)[0]) || PrintInt(n)[0] == '-')
    ensures forall c | c in PrintInt(n) :: IsDigit(c) || c == '-'
  {
    hide PrintNat, DigitsValue;
    var t := PrintInt(n);
    if n < 0 {
      PrintNatValue(-(n as int));
      assert t[1..] == PrintNat(-(n as int));
    } else {
      PrintNatValue(n);
      assert t[0] in t;
    }
  }

  lemma TrimSolid(t: string)
    requires t != [] && !IsSpace(t[0]) && !IsSpace(t[|t|-1])
    ensures Trim(t) == t
  {
  }

  /** The line `t` reads as the value `v`. */
  predicate ReadsAs(t: string, v: Value) {
    '\n' !in t && Trim(t) == t && t != [] && t[0] != '#' && !IsVerb(t) && ParseValue(t) == Some(v)
  }

  /** No verb begins like a value. */
  lemma VerbStart(t: string)
    requires t != [] && (t[0] == '"' || t[0] == '-' || IsDigit(t[0]))
    ensures !IsVerb(t)
  {
  }

  lemma PrintedString(s: string)
    requires CleanValue(Str(s))
    ensures ReadsAs(PrintValue(Str(s)), Str(s))
  {
    hide Trim, IsVerb, ParseInt;
    var t := PrintValue(Str(s));
    assert t[1..] == s;
    VerbStart(t);
    TrimSolid(t);
  }

  lemma PrintedInt(n: Int64)
    ensures ReadsAs(PrintValue(Int(n)), Int(n))
  {
    hide Trim, IsVerb, ParseInt, PrintInt;
    var t := PrintValue(Int(n));
    ParsePrintInt(n);
    VerbStart(t);
    assert t[|t|-1] in t;
    TrimSolid(t);
  }

  lemma PrintedBool(b: bool)
    ensures ReadsAs(PrintValue(Bool(b)), Bool(b))
  {
  }

  /** A printed clean value is one line that the parser takes for exactly that value. */
  lemma {:induction false} PrintedValueParses(v: Value)
    requires CleanValue(v)
    ensures ReadsAs(PrintValue(v), v)
  {
    match v
    case Str(s) => PrintedString(s);
    case Int(n) => PrintedInt(n);
    case Bool(b) => PrintedBool(b);
  }

  lemma VerbLine(name: string)
    requires IsVerb(name)
    ensures '\n' !in name && Trim(name) == name && name != [] && name[0] != '#'
  {
    assert name != [] && !IsSpace(name[0]) && !IsSpace(name[|name|-1]);
    TrimSolid(name);
  }

  lemma {:induction false} ReadPrintedArgs(args: seq<Value>, rest: string, stack: seq<Value>, done: seq<Command>)
    requires CleanArgs(args)
    ensures ReadFrom(PrintArgs(args) + rest, stack, done) == ReadFrom(rest, stack + args, done)
    decreases |args|
  {
    hide Trim, ParseValue, IsVerb, PrintValue, SplitLine;
    if args == [] {
      assert PrintArgs(args) + rest == rest && stack + args == stack;
    } else {
      var t, more := PrintValue(args[0]), PrintArgs(args[1..]) + rest;
      assert PrintArgs(args) + rest == t + ['\n'] + more;
      PrintedValueParses(args[0]);
      SplitExact(t, more);
      ReadPrintedArgs(args[1..], rest, stack + [args[0]], done);
      assert stack + args == stack + [args[0]] + args[1..];
    }
  }

  lemma {:induction false} ReadPrinted(cmds: seq<Command>, done: seq<Command>)
    requires CleanCommands(cmds)
    ensures ReadFrom(PrintAll(cmds), [], done) == Commands(done + cmds)
    decreases |cmds|
  {
    hide Trim, ParseValue, IsVerb, PrintArgs, SplitLine;
    if cmds == [] {
      assert SplitLine([]).NoLine?;
      assert done + cmds == done;
    } else {
      var c, rest := cmds[0], PrintAll(cmds[1..]);
      assert CleanCommand(c);
      var tail := c.name + ['\n'] + rest;
      assert PrintAll(cmds) == PrintArgs(c.args) + tail;
      ReadPrintedArgs(c.args, tail, [], done);
      assert [] + c.args == c.args;
      VerbLine(c.name);
      SplitExact(c.name, rest);
      assert Command(c.name, c.args) == c;
      ReadPrinted(cmds[1..], done + [c]);
      assert done + cmds == done + [c] + cmds[1..];
    }
  }

  lemma {:induction false} TrimRightEnd(s: string)
    ensures TrimRight(s) <= s && (TrimRight(s) == [] || !IsSpace(TrimRight(s)[|TrimRight(s)|-1]))
  {
    if s != [] && IsSpace(s[|s|-1]) {
      TrimRightEnd(s[..|s|-1]);
    }
  }

  lemma {:induction false} TrimLeftMembers(s: string)
    ensures forall c | c in TrimLeft(s) :: c in s
  {
    if s != [] && IsSpace(s[0]) {
      TrimLeftMembers(s[1..]);
    }
  }

  /** Whatever line it comes from, a parsed value is clean. */
  lemma ParsedIsClean(line: string)
    requires '\n' !in line && ParseValue(Trim(line)).Some?
    ensures CleanValue(ParseValue(Trim(line)).value)
  {
    TrimLeftMembers(line);
    TrimRightEnd(TrimLeft(line));
    var t := Trim(line);
    assert forall c | c in t :: c in TrimLeft(line);
  }

  /** So every command list the parser can return is clean. */
  lemma {:induction false} ReadIsClean(s: string, stack: seq<Value>, done: seq<Command>)
    requires CleanArgs(stack) && CleanCommands(done)
    ensures ReadFrom(s, stack, done).Commands? ==> CleanCommands(ReadFrom(s, stack, done).commands)
    decreases |s|
  {
    hide Trim, ParseValue, IsVerb, CleanValue;
    match SplitLine(s)
    case NoLine =>
    case Line(line, rest) =>
      var t := Trim(line);
      if t == [] || t[0] == '#' {
        ReadIsClean(rest, stack, done);
      } else if IsVerb(t) {
        ReadIsClean(rest, [], done + [Command(t, stack)]);
      } else if ParseValue(t).Some? {
        ParsedIsClean(line);
        ReadIsClean(rest, stack + [ParseValue(t).value], done);
      }
  }

  /** Printing a command list and reading it back gives the list exactly when every name is a verb and every
      string is free of newlines and of trailing white space. */
  lemma RoundTripIff(cmds: seq<Command>)
    ensures ReadAll(PrintAll(cmds)) == Commands(cmds) <==> CleanCommands(cmds)
  {
    ReadIsClean(PrintAll(cmds), [], []);
    if CleanCommands(cmds) {
      ReadPrinted(cmds, []);
      assert [] + cmds == cmds;
    }
  }
}

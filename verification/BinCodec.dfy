/** The BIN01 codec: the byte formats, the writer that emits them and the streaming reader. */
module BinCodec {
  import opened Bytes

  const FRAME_CMD: Byte := 0x01
  const FRAME_ATTR: Byte := 0x02
  const FRAME_DATA: Byte := 0x03
  const FRAME_END: Byte := 0x04

  const VAL_STR: Byte := 0x10
  const VAL_INT: Byte := 0x11
  const VAL_BOOL: Byte := 0x12
  const VAL_BLOB: Byte := 0x13

  /** Go strings are byte strings. `Native` is Go's `int`, which travels as an int64; `Other` is a value of any other
      type, of which only its formatted text travels. */
  datatype Value =
    | Str(s: Text) | Int(n: Int64) | Native(i: Int64) | Bool(b: bool) | Blob(bytes: Text) | Other(shown: Text)

  type Attrs = map<Text, Value>

  datatype Frame = Frame(kind: Byte, payload: Text)

  /** Why reading failed. `Eof` is the bare io.EOF, `UnexpectedEof` the bare io.ErrUnexpectedEOF of a cut header;
      a cut payload is wrapped. `Crash` is a slice-bounds panic. */
  datatype Failure = Eof | UnexpectedEof | PayloadCut | CmdTooShort | BadAttr | EndWithoutCmd | UnknownFrame | Crash

  datatype Outcome = Command(code: Byte, attrs: Attrs, data: Text) | Failed(why: Failure)

  datatype Parsed<T> = Ok(value: T) | Malformed | Panics

  // ---- formats ----

  function ValueBytes(v: Value): Text {
    match v
    case Str(s) => [VAL_STR] + LE(|s|, 4) + s
    case Int(n) => [VAL_INT] + LE(ToU64(n), 8)
    case Native(n) => [VAL_INT] + LE(ToU64(n), 8)
    case Bool(b) => [VAL_BOOL, if b then 1 else 0]
    case Blob(s) => [VAL_BLOB] + LE(|s|, 4) + s
    case Other(s) => [VAL_STR] + LE(|s|, 4) + s
  }

  function AttrBytes(key: Text, v: Value): Text {
    BE16(|key|) + key + ValueBytes(v)
  }

  function FrameBytes(f: Frame): (r: Text)
    ensures |r| == 5 + |f.payload|
  {
    [f.kind] + LE(|f.payload|, 4) + f.payload
  }

  function AllBytes(frames: seq<Frame>): Text {
    if frames == [] then [] else FrameBytes(frames[0]) + AllBytes(frames[1..])
  }

  function AttrFrame(key: Text, v: Value): Frame {
    Frame(FRAME_ATTR, AttrBytes(key, v))
  }

  /** The attribute frames when the map is emitted in the order `keys`. */
  function AttrFrames(keys: seq<Text>, attrs: Attrs): seq<Frame>
    requires forall k | k in keys :: k in attrs
  {
    if keys == [] then []
    else AttrFrames(keys[..|keys|-1], attrs) + [AttrFrame(keys[|keys|-1], attrs[keys[|keys|-1]])]
  }

  /** Everything before the END frame. */
  function BodyFrames(code: Byte, keys: seq<Text>, attrs: Attrs, data: Text): seq<Frame>
    requires forall k | k in keys :: k in attrs
  {
    [Frame(FRAME_CMD, [code])] + AttrFrames(keys, attrs) + (if data != [] then [Frame(FRAME_DATA, data)] else [])
  }

  const END := Frame(FRAME_END, [])

  /** Each member of the set once, in some order. */
  ghost predicate Lists(keys: seq<Text>, s: set<Text>) {
    && (forall k :: k in keys <==> k in s)
    && (forall i, j | 0 <= i < j < |keys| :: keys[i] != keys[j])
  }

  /** One encoding of a command, for one emission order of its attributes. */
  function CommandBytes(code: Byte, keys: seq<Text>, attrs: Attrs, data: Text): Text
    requires forall k | k in keys :: k in attrs
  {
    AllBytes(BodyFrames(code, keys, attrs, data) + [END])
  }

  // ---- reader ----

  datatype FrameRead = Got(frame: Frame, rest: Text) | Cut(why: Failure)

  function ReadFrame(s: Text): (r: FrameRead)
    ensures r.Got? ==> |r.rest| < |s|
  {
    if |s| == 0 then Cut(Eof)
    else if |s| < 5 then Cut(UnexpectedEof)
    else
      var length := FromLE(s[1..5]);
      if length > |s| - 5 then Cut(PayloadCut)
      else Got(Frame(s[0], s[5..5+length]), s[5+length..])
  }

  /** A length-prefixed string; the slice bound `4 + n` is computed in uint32. */
  function ParseSized(data: Text): Parsed<Text> {
    if |data| < 4 then Malformed
    else
      var n := FromLE(data[..4]);
      if n + 4 > |data| then Malformed
      else if (n + 4) % TWO32 < 4 then Panics
      else Ok(data[4..(n + 4) % TWO32])
  }

  function ParseValue(tag: Byte, data: Text): Parsed<Value> {
    if tag == VAL_STR then
      match ParseSized(data) case Ok(s) => Ok(Str(s)) case Malformed => Malformed case Panics => Panics
    else if tag == VAL_INT then
      if |data| < 8 then Malformed else
        Bound64(data[..8]);
        Ok(Int(FromU64(FromLE(data[..8]))))
    else if tag == VAL_BOOL then
      if |data| < 1 then Malformed else Ok(Bool(data[0] != 0))
    else if tag == VAL_BLOB then
      match ParseSized(data) case Ok(s) => Ok(Blob(s)) case Malformed => Malformed case Panics => Panics
    else Malformed
  }

  /** The slice bound `2 + keyLen` is computed in uint16. */
  function ParseAttr(payload: Text): Parsed<(Text, Value)> {
    if |payload| < 3 then Malformed
    else
      var keyLen := FromBE16(payload);
      if keyLen + 2 > |payload| then Malformed
      else
        var hi := (2 + keyLen) % TWO16;
        if hi < 2 then Panics
        else
          var rest := payload[hi..];
          if |rest| < 1 then Malformed
          else
            match ParseValue(rest[0], rest[1..])
            case Ok(v) => Ok((payload[2..hi], v))
            case Malformed => Malformed
            case Panics => Panics
  }

  /** What has been collected before END. */
  datatype Acc = Acc(code: seq<Byte>, attrs: Attrs, data: Text)

  datatype Reaction = Continue(acc: Acc) | Finish(outcome: Outcome)

  function React(acc: Acc, f: Frame): Reaction {
    if f.kind == FRAME_CMD then
      if |f.payload| < 1 then Finish(Failed(CmdTooShort)) else Continue(acc.(code := [f.payload[0]]))
    else if f.kind == FRAME_ATTR then
      match ParseAttr(f.payload)
      case Ok(kv) => Continue(acc.(attrs := acc.attrs[kv.0 := kv.1]))
      case Malformed => Finish(Failed(BadAttr))
      case Panics => Finish(Failed(Crash))
    else if f.kind == FRAME_DATA then
      Continue(acc.(data := acc.data + f.payload))
    else if f.kind == FRAME_END then
      if acc.code == [] then Finish(Failed(EndWithoutCmd))
      else Finish(Command(acc.code[0], acc.attrs, acc.data))
    else Finish(Failed(UnknownFrame))
  }

  const EMPTY := Acc([], map[], [])

  /** The outcome of reading one command from `s`, and the unread rest; a cut frame uses the stream up. */
  function Decode(s: Text, acc: Acc): (Outcome, Text)
    decreases |s|
  {
    match ReadFrame(s)
    case Cut(why) => (Failed(why), [])
    case Got(f, rest) =>
      match React(acc, f)
      case Continue(next) => Decode(rest, next)
      case Finish(outcome) => (outcome, rest)
  }

  // ---- imperative writer and reader ----

  method PutLE(b: array<Byte>, at: nat, n: nat, k: nat)
    requires at + k <= b.Length
    modifies b
    ensures b[..] == old(b[..at]) + LE(n, k) + old(b[at + k..])
  {
    var i, m := 0, n;
    while i < k
      invariant i <= k
      invariant b[..at] == old(b[..at]) && b[at + k..] == old(b[at + k..])
      invariant b[at..at + i] + LE(m, k - i) == LE(n, k)
    {
      b[at + i] := m % 256;
      assert b[at..at + i + 1] == b[at..at + i] + [m % 256];
      m := m / 256;
      i := i + 1;
    }
    assert b[..] == b[..at] + b[at..at + k] + b[at + k..];
  }

  method CopyInto(b: array<Byte>, at: nat, s: Text)
    requires at + |s| == b.Length
    modifies b
    ensures b[..] == old(b[..at]) + s
  {
    forall i | 0 <= i < |s| {
      b[at + i] := s[i];
    }
    assert b[..at] == old(b[..at]) && b[at..] == s;
    assert b[..] == b[..at] + b[at..];
  }

  /** encodeSTR and encodeBLOB, which differ in the tag. */
  method EncodeSized(tag: Byte, s: Text) returns (b: array<Byte>)
    ensures fresh(b) && b[..] == [tag] + LE(|s|, 4) + s
  {
    hide LE;
    b := new Byte[1 + 4 + |s|];
    b[0] := tag;
    PutLE(b, 1, |s|, 4);
    assert b[..5] == [tag] + LE(|s|, 4);
    CopyInto(b, 5, s);
  }

  method EncodeInt(n: Int64) returns (b: array<Byte>)
    ensures fresh(b) && b[..] == ValueBytes(Int(n))
  {
    hide LE;
    b := new Byte[9];
    b[0] := VAL_INT;
    PutLE(b, 1, ToU64(n), 8);
    assert b[..1] == [VAL_INT];
  }

  method EncodeBool(v: bool) returns (b: array<Byte>)
    ensures fresh(b) && b[..] == ValueBytes(Bool(v))
  {
    b := new Byte[2](_ => 0);
    b[0] := VAL_BOOL;
    if v {
      b[1] := 1;
    }
    assert b[..] == [b[0], b[1]];
  }

  method EncodeValue(v: Value) returns (b: array<Byte>)
    ensures fresh(b) && b[..] == ValueBytes(v)
  {
    match v
    case Str(s) => b := EncodeSized(VAL_STR, s);
    case Int(n) => b := EncodeInt(n);
    case Native(n) => b := EncodeInt(n);
    case Bool(x) => b := EncodeBool(x);
    case Blob(s) => b := EncodeSized(VAL_BLOB, s);
    case Other(s) => b := EncodeSized(VAL_STR, s);
  }

  method EncodeAttr(key: Text, v: Value) returns (payload: Text)
    ensures payload == AttrBytes(key, v)
  {
    var value := EncodeValue(v);
    payload := BE16(|key|);
    payload := payload + key;
    payload := payload + value[..];
  }

  /** The byte sink behind the buffered writer; write errors are not modelled. */
  class Writer {
    var out: Text

    constructor ()
      ensures out == []
    {
      out := [];
    }

    method WriteFrame(kind: Byte, payload: Text)
      modifies this
      ensures out == old(out) + FrameBytes(Frame(kind, payload))
    {
      hide LE;
      var header := new Byte[5];
      header[0] := kind;
      PutLE(header, 1, |payload|, 4);
      assert header[..1] == [kind];
      out := out + header[..];
      if |payload| > 0 {
        out := out + payload;
      }
    }

    /** One ATTR frame per attribute; `key :|` is Go's unspecified map iteration order. */
    method WriteAttrs(attrs: Attrs) returns (ghost keys: seq<Text>)
      modifies this
      ensures Lists(keys, attrs.Keys) && out == old(out) + AllBytes(AttrFrames(keys, attrs))
    {
      keys := [];
      hide AttrBytes;
      var todo := attrs.Keys;
      while todo != {}
        invariant todo <= attrs.Keys
        invariant Lists(keys, attrs.Keys - todo)
        invariant out == old(out) + AllBytes(AttrFrames(keys, attrs))
      {
        var key :| key in todo;
        ghost var before := todo;
        todo := todo - {key};
        var payload := EncodeAttr(key, attrs[key]);
        WriteFrame(FRAME_ATTR, payload);
        AllBytesSnoc(AttrFrames(keys, attrs), AttrFrame(key, attrs[key]));
        assert before == todo + {key};
        AttrsSnoc(keys, attrs, key, todo);
        keys := keys + [key];
      }
    }

    /** Appends one encoding of the command. */
    method WriteCommand(code: Byte, attrs: Attrs, data: Text) returns (ghost keys: seq<Text>)
      modifies this
      ensures Lists(keys, attrs.Keys)
      ensures out == old(out) + CommandBytes(code, keys, attrs, data)
    {
      hide AttrFrames, CommandBytes, FrameBytes;
      WriteFrame(FRAME_CMD, [code]);
      keys := WriteAttrs(attrs);
      if |data| > 0 {
        WriteFrame(FRAME_DATA, data);
      }
      WriteFrame(FRAME_END, []);
      BodyBytes(code, keys, attrs, data);
    }
  }

  lemma {:induction false} AllBytesConcat(a: seq<Frame>, b: seq<Frame>)
    ensures AllBytes(a + b) == AllBytes(a) + AllBytes(b)
  {
    hide FrameBytes;
    if a == [] {
      assert a + b == b;
    } else {
      AllBytesConcat(a[1..], b);
      assert (a + b)[1..] == a[1..] + b;
    }
  }

  lemma AllBytesSnoc(a: seq<Frame>, f: Frame)
    ensures AllBytes(a + [f]) == AllBytes(a) + FrameBytes(f)
  {
    AllBytesConcat(a, [f]);
  }

  lemma BodyBytes(code: Byte, keys: seq<Text>, attrs: Attrs, data: Text)
    requires forall k | k in keys :: k in attrs
    ensures CommandBytes(code, keys, attrs, data)
         == FrameBytes(Frame(FRAME_CMD, [code])) + AllBytes(AttrFrames(keys, attrs))
            + (if data != [] then FrameBytes(Frame(FRAME_DATA, data)) else []) + FrameBytes(END)
  {
    var front := [Frame(FRAME_CMD, [code])];
    var tail := if data != [] then [Frame(FRAME_DATA, data)] else [];
    AllBytesConcat(front, AttrFrames(keys, attrs));
    AllBytesConcat(front + AttrFrames(keys, attrs), tail);
    AllBytesSnoc(front + AttrFrames(keys, attrs) + tail, END);
    AllBytesSnoc([], front[0]);
    AllBytesSnoc([], Frame(FRAME_DATA, data));
  }

  lemma AttrsSnoc(keys: seq<Text>, attrs: Attrs, key: Text, todo: set<Text>)
    requires key in attrs && key !in todo && Lists(keys, attrs.Keys - (todo + {key}))
    ensures Lists(keys + [key], attrs.Keys - todo)
    ensures AttrFrames(keys + [key], attrs) == AttrFrames(keys, attrs) + [AttrFrame(key, attrs[key])]
  {
  }

  /** The reader: `input` is what the stream still holds. */
  class Parser {
    var input: Text

    constructor (input: Text)
      ensures this.input == input
    {
      this.input := input;
    }

    method NextFrame() returns (r: FrameRead)
      modifies this
      ensures r == ReadFrame(old(input))
      ensures input == if r.Got? then r.rest else []
    {
      if |input| < 5 {
        r := Cut(if |input| == 0 then Eof else UnexpectedEof);
        input := [];
        return;
      }
      var kind, length := input[0], FromLE(input[1..5]);
      input := input[5..];
      if length > |input| {
        input := [];
        return Cut(PayloadCut);
      }
      var payload := input[..length];
      input := input[length..];
      r := Got(Frame(kind, payload), input);
    }

    method ReadCommand() returns (outcome: Outcome)
      modifies this
      ensures (outcome, input) == Decode(old(input), EMPTY)
    {
      var code: seq<Byte>, attrs: Attrs, data: Text := [], map[], [];
      while true
        invariant Decode(input, Acc(code, attrs, data)) == Decode(old(input), EMPTY)
        decreases |input|
      {
        var r := NextFrame();
        if r.Cut? {
          return Failed(r.why);
        }
        var kind, payload := r.frame.kind, r.frame.payload;
        if kind == FRAME_CMD {
          if |payload| < 1 {
            return Failed(CmdTooShort);
          }
          code := [payload[0]];
        } else if kind == FRAME_ATTR {
          var parsed := ParseAttr(payload);
          match parsed
          case Malformed => return Failed(BadAttr);
          case Panics => return Failed(Crash);
          case Ok(kv) => attrs := attrs[kv.0 := kv.1];
        } else if kind == FRAME_DATA {
          data := data + payload;
        } else if kind == FRAME_END {
          if code == [] {
            return Failed(EndWithoutCmd);
          }
          return Command(code[0], attrs, data);
        } else {
          return Failed(UnknownFrame);
        }
      }
    }
  }
}

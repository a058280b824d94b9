/** What the BIN01 writer and reader guarantee about each other. */
module BinTheorems {
  import opened Bytes
  import opened BinCodec

  /** What a value becomes after a trip: Go's `int` arrives as an int64, a formatted value as its text. */
  function Canon(v: Value): Value {
    match v
    case Native(i) => Int(i)
    case Other(shown) => Str(shown)
    case _ => v
  }

  function CanonAttrs(attrs: Attrs): Attrs {
    map k | k in attrs :: Canon(attrs[k])
  }

  predicate Sized(v: Value) {
    match v
    case Str(s) => |s| + 4 < TWO32
    case Blob(s) => |s| + 4 < TWO32
    case Other(s) => |s| + 4 < TWO32
    case _ => true
  }

  lemma PrefixAndRest(s: Text)
    ensures var data := LE(|s|, 4) + s;
            |data| == 4 + |s| && FromLE(data[..4]) == |s| % TWO32 && data[4..] == s
  {
    hide LE, FromLE;
    Decode32(|s|);
    assert (LE(|s|, 4) + s)[..4] == LE(|s|, 4);
  }

  lemma {:induction false} SizedRoundTrip(s: Text)
    requires |s| + 4 < TWO32
    ensures ParseSized(LE(|s|, 4) + s) == Ok(s)
  {
    hide LE, FromLE;
    var data := LE(|s|, 4) + s;
    PrefixAndRest(s);
    SmallMod(|s|, TWO32);
    SmallMod(|s| + 4, TWO32);
    assert data[4..|s| + 4] == data[4..];
  }

  /** A longer one overflows the reader's uint32 slice bound, or the writer's length prefix. */
  lemma LongIsLost(s: Text)
    requires |s| + 4 >= TWO32
    ensures ParseSized(LE(|s|, 4) + s) != Ok(s)
  {
    hide LE, FromLE;
    var data, n := LE(|s|, 4) + s, |s| % TWO32;
    PrefixAndRest(s);
    if |s| < TWO32 {
      SmallMod(|s|, TWO32);
      RemainderUnique(n + 4, TWO32, 1, n + 4 - TWO32);
    } else if n + 4 < TWO32 {
      SmallMod(n + 4, TWO32);
      assert |data[4..n + 4]| < |s|;
    } else {
      RemainderUnique(n + 4, TWO32, 1, n + 4 - TWO32);
    }
  }

  lemma {:induction false} SizedValue(s: Text)
    ensures ParseSized(LE(|s|, 4) + s) == Ok(s) <==> |s| + 4 < TWO32
  {
    hide LE, ParseSized;
    if |s| + 4 < TWO32 {
      SizedRoundTrip(s);
    } else {
      LongIsLost(s);
    }
  }

  /** A value is read back exactly when its length fits. */
  lemma ValueRoundTripIff(v: Value)
    ensures var b := ValueBytes(v); |b| >= 1 && (ParseValue(b[0], b[1..]) == Ok(Canon(v)) <==> Sized(v))
  {
    hide LE, FromLE, ParseSized;
    var b := ValueBytes(v);
    match v
    case Str(s) =>
      SizedValue(s);
      assert b[1..] == LE(|s|, 4) + s;
    case Blob(s) =>
      SizedValue(s);
      assert b[1..] == LE(|s|, 4) + s;
    case Other(s) =>
      SizedValue(s);
      assert b[1..] == LE(|s|, 4) + s;
    case Int(n) =>
      Decode64(n);
      assert b[1..] == LE(ToU64(n), 8) == b[1..][..8];
    case Native(n) =>
      Decode64(n);
      assert b[1..] == LE(ToU64(n), 8) == b[1..][..8];
    case Bool(x) =>
  }

  const MAX_KEY := 65533

  lemma ShortKey(key: Text, v: Value)
    requires |key| <= MAX_KEY
    ensures ParseAttr(AttrBytes(key, v)) == Ok((key, Canon(v))) <==> Sized(v)
  {
    hide ValueBytes, ParseValue, BE16, Sized;
    var p, value := AttrBytes(key, v), ValueBytes(v);
    ValueRoundTripIff(v);
    DecodeBE16(|key|);
    assert p[..2] == BE16(|key|);
    assert FromBE16(p) == |key|;
    assert p[2..2 + |key|] == key;
    assert p[2 + |key|..] == value;
  }

  lemma LongKey(key: Text, v: Value)
    requires |key| > MAX_KEY
    ensures ParseAttr(AttrBytes(key, v)) != Ok((key, Canon(v)))
    ensures |key| == 65534 || |key| == 65535 ==> ParseAttr(AttrBytes(key, v)).Panics?
  {
    hide ParseValue, ValueBytes, BE16;
    var p := AttrBytes(key, v);
    DecodeBE16(|key|);
    assert p[..2] == BE16(|key|);
    assert FromBE16(p) == |key| % TWO16;
    assert |key| < TWO16 ==> |key| % TWO16 == |key| && (2 + |key|) % TWO16 == 2 + |key| - TWO16;
    assert forall hi | 2 <= hi <= |p| && hi < TWO16 :: |p[2..hi]| < |key|;
    ValueRoundTripIff(v);
  }

  /** The attribute round trip holds exactly for keys of at most 65533 bytes and values whose length fits. The two
      longest key lengths that still fit the prefix overflow the reader's uint16 slice bound, longer ones are truncated
      by the writer. */
  lemma AttrRoundTripIff(key: Text, v: Value)
    ensures ParseAttr(AttrBytes(key, v)) == Ok((key, Canon(v))) <==> |key| <= MAX_KEY && Sized(v)
    ensures |key| == 65534 || |key| == 65535 ==> ParseAttr(AttrBytes(key, v)).Panics?
  {
    hide ParseAttr, AttrBytes, Sized;
    if |key| <= MAX_KEY {
      ShortKey(key, v);
    } else {
      LongKey(key, v);
    }
  }

  // ---- frames ----

  /** The frame's length fits its header. */
  predicate Fits(f: Frame) {
    |f.payload| < TWO32
  }

  predicate AllFit(frames: seq<Frame>) {
    forall i | 0 <= i < |frames| :: Fits(frames[i])
  }

  lemma FrameRoundTrip(f: Frame, rest: Text)
    requires Fits(f)
    ensures ReadFrame(FrameBytes(f) + rest) == Got(f, rest)
  {
    hide LE, FromLE;
    var s := FrameBytes(f) + rest;
    Decode32(|f.payload|);
    SmallMod(|f.payload|, TWO32);
    assert s[1..5] == LE(|f.payload|, 4);
    assert s[5..5 + |f.payload|] == f.payload;
    assert s[5 + |f.payload|..] == rest;
  }

  /** A frame is read back exactly when its length fits: a longer one loses its end to what follows. */
  lemma FrameRoundTripIff(f: Frame, rest: Text)
    ensures ReadFrame(FrameBytes(f) + rest) == Got(f, rest) <==> Fits(f)
  {
    if Fits(f) {
      FrameRoundTrip(f, rest);
    } else {
      hide LE, FromLE;
      var s := FrameBytes(f) + rest;
      Decode32(|f.payload|);
      assert s[1..5] == LE(|f.payload|, 4);
      assert |s[5..5 + |f.payload| % TWO32]| < |f.payload|;
    }
  }

  /** The frame is taken in without ending the command. */
  predicate Absorbs(f: Frame) {
    (f.kind == FRAME_CMD && |f.payload| >= 1) || (f.kind == FRAME_ATTR && ParseAttr(f.payload).Ok?) ||
              f.kind == FRAME_DATA
  }

  predicate AllAbsorb(frames: seq<Frame>) {
    forall i | 0 <= i < |frames| :: Absorbs(frames[i])
  }

  function Absorb(acc: Acc, f: Frame): Acc
    requires Absorbs(f)
  {
    React(acc, f).acc
  }

  function AbsorbAll(acc: Acc, frames: seq<Frame>): Acc
    requires AllAbsorb(frames)
    decreases |frames|
  {
    if frames == [] then acc else AbsorbAll(Absorb(acc, frames[0]), frames[1..])
  }

  /** Reading past well-formed frames accumulates them. */
  lemma {:induction false} DecodeFrames(frames: seq<Frame>, acc: Acc, tail: Text)
    requires AllFit(frames) && AllAbsorb(frames)
    ensures Decode(AllBytes(frames) + tail, acc) == Decode(tail, AbsorbAll(acc, frames))
    decreases |frames|
  {
    hide FrameBytes, ReadFrame, ParseAttr;
    if frames == [] {
      assert AllBytes(frames) + tail == tail;
    } else {
      var rest := AllBytes(frames[1..]) + tail;
      assert AllBytes(frames) + tail == FrameBytes(frames[0]) + rest;
      FrameRoundTrip(frames[0], rest);
      DecodeFrames(frames[1..], Absorb(acc, frames[0]), tail);
    }
  }

  lemma DecodeEnd(acc: Acc, rest: Text)
    requires acc.code != []
    ensures Decode(FrameBytes(END) + rest, acc) == (Command(acc.code[0], acc.attrs, acc.data), rest)
  {
    hide FrameBytes, ReadFrame;
    FrameRoundTrip(END, rest);
  }

  // ---- what the result depends on ----

  function OfKind(frames: seq<Frame>, kind: Byte): seq<Frame> {
    if frames == [] then []
    else if frames[0].kind == kind then [frames[0]] + OfKind(frames[1..], kind)
    else OfKind(frames[1..], kind)
  }

  function Joined(frames: seq<Frame>): Text {
    if frames == [] then [] else frames[0].payload + Joined(frames[1..])
  }

  /** Later CMD frames replace earlier ones. */
  function LastCode(code: seq<Byte>, cmds: seq<Frame>): seq<Byte>
    requires forall i | 0 <= i < |cmds| :: |cmds[i].payload| >= 1
  {
    if cmds == [] then code else [cmds[|cmds|-1].payload[0]]
  }

  /** Later attributes override earlier ones with the same key. */
  function Overrides(attrs: Attrs, frames: seq<Frame>): Attrs
    requires forall i | 0 <= i < |frames| :: ParseAttr(frames[i].payload).Ok?
    decreases |frames|
  {
    if frames == [] then attrs
    else
      var kv := ParseAttr(frames[0].payload).value;
      Overrides(attrs[kv.0 := kv.1], frames[1..])
  }

  lemma {:induction false} OfKindAbsorbs(frames: seq<Frame>, kind: Byte)
    requires AllAbsorb(frames)
    ensures forall i | 0 <= i < |OfKind(frames, kind)| ::
              OfKind(frames, kind)[i].kind == kind && Absorbs(OfKind(frames, kind)[i])
    decreases |frames|
  {
    hide Absorbs;
    if frames != [] {
      OfKindAbsorbs(frames[1..], kind);
    }
  }

  /** What accumulates is determined by each kind of frame on its own. */
  lemma {:induction false} AbsorbByKind(acc: Acc, frames: seq<Frame>)
    requires AllAbsorb(frames)
    ensures forall i | 0 <= i < |OfKind(frames, FRAME_CMD)| :: |OfKind(frames, FRAME_CMD)[i].payload| >= 1
    ensures forall i | 0 <= i < |OfKind(frames, FRAME_ATTR)| :: ParseAttr(OfKind(frames, FRAME_ATTR)[i].payload).Ok?
    ensures AbsorbAll(acc, frames) ==
              Acc(LastCode(acc.code, OfKind(frames, FRAME_CMD)), Overrides(acc.attrs, OfKind(frames, FRAME_ATTR)),
                  acc.data + Joined(OfKind(frames, FRAME_DATA)))
    decreases |frames|
  {
    hide ParseAttr;
    OfKindAbsorbs(frames, FRAME_CMD);
    OfKindAbsorbs(frames, FRAME_ATTR);
    if frames == [] {
      assert acc.data + [] == acc.data;
    } else {
      var f := frames[0];
      AbsorbByKind(Absorb(acc, f), frames[1..]);
      assert f.kind == FRAME_CMD ==> OfKind(frames, FRAME_CMD) == [f] + OfKind(frames[1..], FRAME_CMD);
      if f.kind == FRAME_DATA {
        assert OfKind(frames, FRAME_DATA)[1..] == OfKind(frames[1..], FRAME_DATA);
        var tail := Joined(OfKind(frames[1..], FRAME_DATA));
        assert (acc.data + f.payload) + tail == acc.data + (f.payload + tail);
      } else if f.kind == FRAME_ATTR {
        assert OfKind(frames, FRAME_ATTR)[1..] == OfKind(frames[1..], FRAME_ATTR);
      }
    }
  }

  /** Re-chunking data, or interleaving CMD, ATTR and DATA frames differently with the order kept within each
      kind, changes nothing about the command that is read. */
  lemma InterleavingIrrelevant(f: seq<Frame>, g: seq<Frame>, rest: Text)
    requires AllFit(f) && AllAbsorb(f) && AllFit(g) && AllAbsorb(g)
    requires OfKind(f, FRAME_CMD) != [] && OfKind(f, FRAME_CMD) == OfKind(g, FRAME_CMD)
    requires OfKind(f, FRAME_ATTR) == OfKind(g, FRAME_ATTR)
    requires Joined(OfKind(f, FRAME_DATA)) == Joined(OfKind(g, FRAME_DATA))
    ensures Decode(AllBytes(f) + FrameBytes(END) + rest, EMPTY) == Decode(AllBytes(g) + FrameBytes(END) + rest, EMPTY)
    ensures Decode(AllBytes(f) + FrameBytes(END) + rest, EMPTY).0.Command?
  {
    hide FrameBytes, ReadFrame, ParseAttr, React;
    AbsorbByKind(EMPTY, f);
    AbsorbByKind(EMPTY, g);
    assert AllBytes(f) + FrameBytes(END) + rest == AllBytes(f) + (FrameBytes(END) + rest);
    assert AllBytes(g) + FrameBytes(END) + rest == AllBytes(g) + (FrameBytes(END) + rest);
    DecodeFrames(f, EMPTY, FrameBytes(END) + rest);
    DecodeFrames(g, EMPTY, FrameBytes(END) + rest);
    DecodeEnd(AbsorbAll(EMPTY, f), rest);
  }

  // ---- round trips ----

  predicate Writable(attrs: Attrs, data: Text) {
    && |data| < TWO32
    && forall k | k in attrs :: |k| <= MAX_KEY && |AttrBytes(k, attrs[k])| < TWO32
  }

  lemma AttrFrameReads(key: Text, v: Value)
    requires |key| <= MAX_KEY && |AttrBytes(key, v)| < TWO32
    ensures var f := AttrFrame(key, v); Fits(f) && Absorbs(f) && ParseAttr(f.payload) == Ok((key, Canon(v)))
  {
    assert Sized(v) by {
      assert |ValueBytes(v)| <= |AttrBytes(key, v)|;
    }
    AttrRoundTripIff(key, v);
  }

  lemma {:induction false} AbsorbSnoc(acc: Acc, frames: seq<Frame>, f: Frame)
    requires AllAbsorb(frames) && Absorbs(f)
    ensures AllAbsorb(frames + [f]) && AbsorbAll(acc, frames + [f]) == Absorb(AbsorbAll(acc, frames), f)
    decreases |frames|
  {
    hide Absorbs, React;
    if frames == [] {
      assert frames + [f] == [f];
    } else {
      assert (frames + [f])[1..] == frames[1..] + [f];
      AbsorbSnoc(Absorb(acc, frames[0]), frames[1..], f);
    }
  }

  /** The attributes of the keys emitted so far. */
  function Sent(attrs: Attrs, keys: seq<Text>): Attrs
    requires forall k | k in keys :: k in attrs
  {
    map k | k in keys :: Canon(attrs[k])
  }

  lemma {:induction false} AttrFramesRead(keys: seq<Text>, attrs: Attrs, data: Text, acc: Acc)
    requires Writable(attrs, data) && (forall k | k in keys :: k in attrs)
    requires acc.attrs == map[]
    ensures AllFit(AttrFrames(keys, attrs)) && AllAbsorb(AttrFrames(keys, attrs))
    ensures AbsorbAll(acc, AttrFrames(keys, attrs)) == acc.(attrs := Sent(attrs, keys))
  {
    hide AttrBytes, ParseAttr;
    if keys != [] {
      var b, k := keys[..|keys|-1], keys[|keys|-1];
      assert keys == b + [k];
      AttrFramesRead(b, attrs, data, acc);
      AttrFrameReads(k, attrs[k]);
      AbsorbSnoc(acc, AttrFrames(b, attrs), AttrFrame(k, attrs[k]));
      assert Sent(attrs, keys) == Sent(attrs, b)[k := Canon(attrs[k])];
    }
  }

  lemma BodyReads(code: Byte, keys: seq<Text>, attrs: Attrs, data: Text)
    requires Writable(attrs, data) && Lists(keys, attrs.Keys)
    ensures var body := BodyFrames(code, keys, attrs, data);
            AllFit(body) && AllAbsorb(body) && AbsorbAll(EMPTY, body) == Acc([code], CanonAttrs(attrs), data)
  {
    hide AttrFrames, ParseAttr;
    var cmd, mid := Frame(FRAME_CMD, [code]), AttrFrames(keys, attrs);
    AttrFramesRead(keys, attrs, data, Acc([code], map[], []));
    assert Sent(attrs, keys) == CanonAttrs(attrs);
    assert ([cmd] + mid)[1..] == mid;
    assert AbsorbAll(EMPTY, [cmd] + mid) == Acc([code], CanonAttrs(attrs), []);
    assert data == [] ==> [cmd] + mid + [] == [cmd] + mid;
    if data != [] {
      AbsorbSnoc(EMPTY, [cmd] + mid, Frame(FRAME_DATA, data));
      assert [] + data == data;
    }
  }

  /** Reading one written command gives back its code, its attributes and its data, whatever order the map was
      emitted in, and leaves the rest of the stream untouched. */
  lemma CommandRoundTrip(code: Byte, keys: seq<Text>, attrs: Attrs, data: Text, rest: Text)
    requires Writable(attrs, data) && Lists(keys, attrs.Keys)
    ensures Decode(CommandBytes(code, keys, attrs, data) + rest, EMPTY) ==
              (Command(code, CanonAttrs(attrs), data), rest)
  {
    hide BodyFrames, FrameBytes, ReadFrame, Decode, AbsorbAll, AllFit, AllAbsorb, AllBytes, CanonAttrs, Writable;
    var body := BodyFrames(code, keys, attrs, data);
    BodyReads(code, keys, attrs, data);
    AllBytesSnoc(body, END);
    assert CommandBytes(code, keys, attrs, data) + rest == AllBytes(body) + (FrameBytes(END) + rest);
    DecodeFrames(body, EMPTY, FrameBytes(END) + rest);
    DecodeEnd(AbsorbAll(EMPTY, body), rest);
  }

  predicate ShortKeys(attrs: Attrs) {
    forall k | k in attrs :: |k| <= MAX_KEY
  }

  lemma DecodedKeyIsShort(payload: Text)
    requires ParseAttr(payload).Ok?
    ensures |ParseAttr(payload).value.0| <= MAX_KEY
  {
    hide ParseValue;
    var hi := (2 + FromBE16(payload)) % TWO16;
    assert |payload[2..hi]| == hi - 2;
  }

  /** No stream makes the reader return a longer key. */
  lemma {:induction false} DecodedKeysAreShort(s: Text, acc: Acc)
    requires ShortKeys(acc.attrs)
    ensures Decode(s, acc).0.Command? ==> ShortKeys(Decode(s, acc).0.attrs)
    decreases |s|
  {
    hide ParseAttr, ReadFrame;
    match ReadFrame(s)
    case Cut(_) =>
    case Got(f, rest) =>
      if React(acc, f).Continue? {
        if f.kind == FRAME_ATTR {
          DecodedKeyIsShort(f.payload);
        }
        DecodedKeysAreShort(rest, React(acc, f).acc);
      }
  }

  /** A command whose frames fit is read back exactly when every key has at most 65533 bytes. */
  lemma CommandRoundTripIff(code: Byte, keys: seq<Text>, attrs: Attrs, data: Text, rest: Text)
    requires Lists(keys, attrs.Keys) && |data| < TWO32 && forall k | k in attrs :: |AttrBytes(k, attrs[k])| < TWO32
    ensures ShortKeys(attrs) <==>
              Decode(CommandBytes(code, keys, attrs, data) + rest, EMPTY) ==
                        (Command(code, CanonAttrs(attrs), data), rest)
  {
    hide Decode, CommandBytes, AttrBytes;
    if ShortKeys(attrs) {
      CommandRoundTrip(code, keys, attrs, data, rest);
    } else {
      DecodedKeysAreShort(CommandBytes(code, keys, attrs, data) + rest, EMPTY);
      assert CanonAttrs(attrs).Keys == attrs.Keys;
    }
  }

  /** A command as handed to the writer, with the emission order the map iteration happened to take. */
  datatype Written = Written(code: Byte, attrs: Attrs, data: Text, keys: seq<Text>)

  ghost predicate ValidWritten(w: Written) {
    Writable(w.attrs, w.data) && Lists(w.keys, w.attrs.Keys)
  }

  ghost function WrittenBytes(w: Written): Text
    requires ValidWritten(w)
  {
    CommandBytes(w.code, w.keys, w.attrs, w.data)
  }

  ghost predicate AllValid(ws: seq<Written>) {
    forall i | 0 <= i < |ws| :: ValidWritten(ws[i])
  }

  ghost function StreamBytes(ws: seq<Written>): Text
    requires AllValid(ws)
  {
    if ws == [] then [] else WrittenBytes(ws[0]) + StreamBytes(ws[1..])
  }

  function Receipt(w: Written): Outcome {
    Command(w.code, CanonAttrs(w.attrs), w.data)
  }

  function Received(ws: seq<Written>): seq<Outcome> {
    if ws == [] then [] else [Receipt(ws[0])] + Received(ws[1..])
  }

  /** Reads `n` commands one after another. */
  function DecodeMany(s: Text, n: nat): (seq<Outcome>, Text)
    decreases n
  {
    if n == 0 then ([], s)
    else
      var (first, rest) := Decode(s, EMPTY);
      var (others, last) := DecodeMany(rest, n - 1);
      ([first] + others, last)
  }

  /** A stream of written commands is read back as exactly that list, with every byte used and a clean EOF after it. */
  lemma {:induction false} StreamRoundTrip(ws: seq<Written>)
    requires AllValid(ws)
    ensures DecodeMany(StreamBytes(ws), |ws|) == (Received(ws), [])
    ensures DecodeMany(StreamBytes(ws), |ws| + 1) == (Received(ws) + [Failed(Eof)], [])
    decreases |ws|
  {
    hide WrittenBytes, Receipt;
    if ws == [] {
      assert Decode([], EMPTY) == (Failed(Eof), []);
      assert DecodeMany([], 0) == ([], []);
      assert Received(ws) + [Failed(Eof)] == [Failed(Eof)] + [];
    } else {
      hide Decode;
      WrittenReads(ws[0], StreamBytes(ws[1..]));
      StreamRoundTrip(ws[1..]);
      assert [Receipt(ws[0])] + (Received(ws[1..]) + [Failed(Eof)]) == Received(ws) + [Failed(Eof)];
    }
  }

  lemma WrittenReads(w: Written, rest: Text)
    requires ValidWritten(w)
    ensures Decode(WrittenBytes(w) + rest, EMPTY) == (Receipt(w), rest)
  {
    CommandRoundTrip(w.code, w.keys, w.attrs, w.data, rest);
  }

  // ---- cut streams ----

  lemma CutFrame(f: Frame, n: nat)
    requires Fits(f) && n < |FrameBytes(f)|
    ensures var r := ReadFrame(FrameBytes(f)[..n]);
            r == Cut(if n == 0 then Eof else if n < 5 then UnexpectedEof else PayloadCut)
  {
    hide LE, FromLE;
    var s := FrameBytes(f)[..n];
    if n >= 5 {
      Decode32(|f.payload|);
      SmallMod(|f.payload|, TWO32);
      assert s[1..5] == LE(|f.payload|, 4);
    }
  }

  /** The cut falls between two frames. */
  ghost predicate AtBoundary(frames: seq<Frame>, n: nat) {
    exists j | 0 <= j <= |frames| :: n == |AllBytes(frames[..j])|
  }

  lemma BoundaryCons(f: Frame, rest: seq<Frame>, n: nat)
    requires n >= |FrameBytes(f)|
    ensures AtBoundary([f] + rest, n) <==> AtBoundary(rest, n - |FrameBytes(f)|)
  {
    var frames := [f] + rest;
    forall j | 0 < j <= |frames| ensures |AllBytes(frames[..j])| == |FrameBytes(f)| + |AllBytes(rest[..j-1])| {
      assert frames[..j][1..] == rest[..j-1];
    }
    if AtBoundary(frames, n) {
      var j :| 0 <= j <= |frames| && n == |AllBytes(frames[..j])|;
      assert j > 0;
      assert n - |FrameBytes(f)| == |AllBytes(rest[..j-1])|;
    }
    if AtBoundary(rest, n - |FrameBytes(f)|) {
      var j :| 0 <= j <= |rest| && n - |FrameBytes(f)| == |AllBytes(rest[..j])|;
      assert n == |AllBytes(frames[..j+1])|;
    }
  }

  lemma {:induction false} CutFrames(body: seq<Frame>, acc: Acc, n: nat)
    requires AllFit(body) && AllAbsorb(body) && n < |AllBytes(body + [END])|
    ensures Decode(AllBytes(body + [END])[..n], acc).0.Failed?
    ensures Decode(AllBytes(body + [END])[..n], acc).0 == Failed(Eof) <==> AtBoundary(body + [END], n)
    decreases |body|
  {
    hide FrameBytes, ReadFrame, ParseAttr;
    var frames := body + [END];
    var f, rest := frames[0], frames[1..];
    var l := |FrameBytes(f)|;
    assert frames == [f] + rest;
    if n < l {
      CutFrame(f, n);
      assert AllBytes(frames)[..n] == FrameBytes(f)[..n];
      FirstBoundary(f, rest, n);
    } else {
      assert body != [];
      assert rest == body[1..] + [END];
      var tail := AllBytes(rest)[..n - l];
      assert AllBytes(frames)[..n] == FrameBytes(f) + tail;
      FrameRoundTrip(f, tail);
      CutFrames(body[1..], Absorb(acc, f), n - l);
      BoundaryCons(f, rest, n);
    }
  }

  lemma FirstBoundary(f: Frame, rest: seq<Frame>, n: nat)
    requires n < |FrameBytes(f)|
    ensures AtBoundary([f] + rest, n) <==> n == 0
  {
    var frames := [f] + rest;
    forall j | 0 < j <= |frames| ensures |AllBytes(frames[..j])| >= |FrameBytes(f)| {
      assert frames[..j][0] == f;
    }
    assert n == 0 ==> n == |AllBytes(frames[..0])|;
  }

  /** No proper prefix of a written command reads as a command, and the bare EOF appears exactly when the cut is
      at a frame boundary. */
  lemma {:induction false} NoPrefixDecodes(code: Byte, keys: seq<Text>, attrs: Attrs, data: Text, n: nat)
    requires Writable(attrs, data) && Lists(keys, attrs.Keys)
    requires n < |CommandBytes(code, keys, attrs, data)|
    ensures var cut := Decode(CommandBytes(code, keys, attrs, data)[..n], EMPTY).0;
            && cut.Failed?
            && (cut.why == Eof <==> AtBoundary(BodyFrames(code, keys, attrs, data) + [END], n))
  {
    BodyReads(code, keys, attrs, data);
    CutFrames(BodyFrames(code, keys, attrs, data), EMPTY, n);
  }
}

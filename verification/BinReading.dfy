/** Which byte streams the BIN01 reader accepts, as what, and why it refuses the others: said of the bytes, with the
    tags written out, and not through the functions that read them. */
module BinReading {
  import opened Bytes
  import opened BinCodec
  import opened BinTheorems

  // ---- numbers ----

  lemma DivSplit(n: nat, p: nat)
    requires p > 0
    ensures (n / 256) / p == n / (256 * p)
  {
    var q, big := n / 256 / p, n / (256 * p);
    ModSplit(n, p);
    assert n == 256 * p * big + n % (256 * p);
    assert n / 256 == p * q + (n / 256) % p;
    assert 256 * p * q == 256 * (p * q);
    Multiples(256 * p, q, big);
    Multiples(256 * p, big, q);
  }

  /** Byte `i` of a length or an integer counts the multiples of 256 to the power `i`. */
  lemma {:induction false} LittleEndian(n: nat, k: nat, i: nat)
    requires i < k
    ensures LE(n, k)[i] == n / Pow256(i) % 256
  {
    if i > 0 {
      LittleEndian(n / 256, k - 1, i - 1);
      DivSplit(n, Pow256(i - 1));
    }
  }

  /** Nothing but its bytes has a number's value. */
  lemma {:induction false} LEOfFromLE(s: Text)
    ensures LE(FromLE(s), |s|) == s
  {
    if s != [] {
      LEOfFromLE(s[1..]);
      assert FromLE(s) == s[0] + 256 * FromLE(s[1..]);
      assert s == [s[0]] + s[1..];
    }
  }

  lemma {:induction false} FromLEUnique(n: nat, s: Text)
    requires n < Pow256(|s|)
    ensures FromLE(s) == n <==> s == LE(n, |s|)
  {
    DecodeEncode(n, |s|);
    SmallMod(n, Pow256(|s|));
    LEOfFromLE(s);
  }

  // ---- values ----

  /** The bytes begin with the value in its wire form. What follows it is ignored, and any byte but 0 is true. */
  ghost predicate Spells(bytes: Text, v: Value) {
    exists junk: Text :: SpellsThen(bytes, v, junk)
  }

  predicate SpellsThen(bytes: Text, v: Value, junk: Text) {
    match v
    case Str(s) => |s| + 4 < TWO32 && bytes == [0x10] + (LE(|s|, 4) + s) + junk
    case Int(n) => bytes == [0x11] + LE(if n < 0 then n + TWO64 else n, 8) + junk
    case Bool(b) => |bytes| >= 2 && bytes[0] == 0x12 && (b <==> bytes[1] != 0)
    case Blob(s) => |s| + 4 < TWO32 && bytes == [0x13] + (LE(|s|, 4) + s) + junk
    case _ => false
  }

  /** A string or blob as long as its prefix says, of one of the last four 32-bit lengths: 4 more does not fit. */
  ghost predicate TooLong(bytes: Text) {
    exists s: Text, junk ::
      && |s| < TWO32 <= |s| + 4
      && (bytes == [0x10] + (LE(|s|, 4) + s) + junk || bytes == [0x13] + (LE(|s|, 4) + s) + junk)
  }

  lemma SizedParts(data: Text, s: Text, junk: Text)
    requires |s| < TWO32 && data == LE(|s|, 4) + s + junk
    ensures |data| >= 4 + |s| && FromLE(data[..4]) == |s| && data[4..4 + |s|] == s && data[4 + |s|..] == junk
  {
    hide LE, FromLE;
    Decode32(|s|);
    SmallMod(|s|, TWO32);
    assert data[..4] == LE(|s|, 4);
  }

  lemma SizedWhole(data: Text) returns (s: Text, junk: Text)
    requires |data| >= 4 && FromLE(data[..4]) + 4 <= |data|
    ensures |s| == FromLE(data[..4]) < TWO32 && data == LE(|s|, 4) + s + junk
  {
    hide LE, FromLE;
    var n := FromLE(data[..4]);
    FromLEBound(data[..4]);
    Pow256Values();
    LEOfFromLE(data[..4]);
    s, junk := data[4..4 + n], data[4 + n..];
  }

  lemma SizedMeaning(data: Text, s: Text)
    ensures ParseSized(data) == Ok(s) <==> |s| + 4 < TWO32 && exists junk :: data == LE(|s|, 4) + s + junk
  {
    hide LE, FromLE;
    if ParseSized(data) == Ok(s) {
      var t, junk := SizedWhole(data);
      SizedParts(data, t, junk);
      NoOverflow(|t|);
      assert s == t;
    }
    if |s| + 4 < TWO32 && exists junk :: data == LE(|s|, 4) + s + junk {
      var junk :| data == LE(|s|, 4) + s + junk;
      SizedParts(data, s, junk);
      SmallMod(|s| + 4, TWO32);
    }
  }

  lemma NoOverflow(n: nat)
    requires n < TWO32
    ensures (n + 4) % TWO32 >= 4 <==> n + 4 < TWO32
    ensures n + 4 < TWO32 ==> (n + 4) % TWO32 == n + 4
  {
    if n + 4 >= TWO32 {
      RemainderUnique(n + 4, TWO32, 1, n + 4 - TWO32);
    }
  }

  lemma SizedPanics(data: Text)
    ensures ParseSized(data).Panics? <==>
              exists s: Text, junk :: |s| < TWO32 <= |s| + 4 && data == LE(|s|, 4) + s + junk
  {
    hide LE, FromLE;
    if ParseSized(data).Panics? {
      var s, junk := SizedWhole(data);
      NoOverflow(|s|);
    }
    if exists s: Text, junk :: |s| < TWO32 <= |s| + 4 && data == LE(|s|, 4) + s + junk {
      var s: Text, junk :| |s| < TWO32 <= |s| + 4 && data == LE(|s|, 4) + s + junk;
      SizedParts(data, s, junk);
      NoOverflow(|s|);
    }
  }

  lemma IntMeaning(data: Text, n: Int64)
    ensures ParseValue(0x11, data) == Ok(Int(n)) <==> exists junk :: data == LE(ToU64(n), 8) + junk
  {
    hide LE, FromLE, ParseSized;
    Pow256Values();
    if |data| >= 8 {
      Bound64(data[..8]);
      FromLEUnique(ToU64(n), data[..8]);
      if data[..8] == LE(ToU64(n), 8) {
        assert data == LE(ToU64(n), 8) + data[8..];
      }
    }
    if exists junk :: data == LE(ToU64(n), 8) + junk {
      var junk :| data == LE(ToU64(n), 8) + junk;
      assert data[..8] == LE(ToU64(n), 8);
    }
  }

  lemma StrMeaning(bytes: Text, s: Text)
    requires bytes != []
    ensures ParseValue(bytes[0], bytes[1..]) == Ok(Str(s)) <==> Spells(bytes, Str(s))
  {
    hide LE, ParseSized;
    SizedMeaning(bytes[1..], s);
    Tagged(bytes, 0x10, LE(|s|, 4) + s);
    assert Spells(bytes, Str(s)) <==> |s| + 4 < TWO32 && exists junk :: bytes == [0x10] + (LE(|s|, 4) + s) + junk by {
      assert forall junk :: SpellsThen(bytes, Str(s), junk) <==>
                              |s| + 4 < TWO32 && bytes == [0x10] + (LE(|s|, 4) + s) + junk;
    }
  }

  lemma BlobMeaning(bytes: Text, s: Text)
    requires bytes != []
    ensures ParseValue(bytes[0], bytes[1..]) == Ok(Blob(s)) <==> Spells(bytes, Blob(s))
  {
    hide LE, ParseSized;
    SizedMeaning(bytes[1..], s);
    Tagged(bytes, 0x13, LE(|s|, 4) + s);
    assert Spells(bytes, Blob(s)) <==> |s| + 4 < TWO32 && exists junk :: bytes == [0x13] + (LE(|s|, 4) + s) + junk by {
      assert forall junk :: SpellsThen(bytes, Blob(s), junk) <==>
                              |s| + 4 < TWO32 && bytes == [0x13] + (LE(|s|, 4) + s) + junk;
    }
  }

  lemma NumberMeaning(bytes: Text, n: Int64)
    requires bytes != []
    ensures ParseValue(bytes[0], bytes[1..]) == Ok(Int(n)) <==> Spells(bytes, Int(n))
  {
    hide LE, FromLE, ParseSized;
    IntMeaning(bytes[1..], n);
    Tagged(bytes, 0x11, LE(ToU64(n), 8));
    assert Spells(bytes, Int(n)) <==> exists junk :: bytes == [0x11] + LE(ToU64(n), 8) + junk by {
      assert forall junk :: SpellsThen(bytes, Int(n), junk) <==> bytes == [0x11] + LE(ToU64(n), 8) + junk;
    }
  }

  /** The value reader accepts exactly the bytes that spell the value. */
  lemma ValueMeaning(bytes: Text, v: Value)
    requires bytes != []
    ensures ParseValue(bytes[0], bytes[1..]) == Ok(v) <==> Spells(bytes, v)
  {
    hide LE, FromLE, ParseSized;
    match v
    case Str(s) => StrMeaning(bytes, s);
    case Blob(s) => BlobMeaning(bytes, s);
    case Int(n) => NumberMeaning(bytes, n);
    case Bool(b) => assert SpellsThen(bytes, v, []) <==> Spells(bytes, v);
    case Native(_) =>
    case Other(_) =>
  }

  lemma ValuePanics(bytes: Text)
    requires bytes != []
    ensures ParseValue(bytes[0], bytes[1..]).Panics? <==> TooLong(bytes)
  {
    hide LE, FromLE, ParseSized;
    SizedPanics(bytes[1..]);
    if ParseValue(bytes[0], bytes[1..]).Panics? {
      var s: Text, junk :| |s| < TWO32 <= |s| + 4 && bytes[1..] == LE(|s|, 4) + s + junk;
      assert bytes == [bytes[0]] + (LE(|s|, 4) + s) + junk;
    }
    if TooLong(bytes) {
      var s: Text, junk :|
        && |s| < TWO32 <= |s| + 4
        && (bytes == [0x10] + (LE(|s|, 4) + s) + junk || bytes == [0x13] + (LE(|s|, 4) + s) + junk);
      assert bytes[1..] == LE(|s|, 4) + s + junk;
    }
  }

  lemma Tagged(bytes: Text, tag: Byte, body: Text)
    requires bytes != []
    ensures (exists junk :: bytes == [tag] + body + junk) <==>
              bytes[0] == tag && exists junk :: bytes[1..] == body + junk
  {
    if exists junk :: bytes == [tag] + body + junk {
      var junk :| bytes == [tag] + body + junk;
      assert bytes[1..] == body + junk;
    }
    if bytes[0] == tag && exists junk :: bytes[1..] == body + junk {
      var junk :| bytes[1..] == body + junk;
      assert bytes == [tag] + bytes[1..] == [tag] + body + junk;
    }
  }

  // ---- attributes ----

  /** Two bytes of key length, highest first, the key, and what is left for the value. */
  predicate KeyThen(payload: Text, key: Text, bytes: Text) {
    |key| < TWO16 && payload == [|key| / 256, |key| % 256] + key + bytes
  }

  ghost predicate SpellsAttr(payload: Text, key: Text, v: Value) {
    |key| <= 65533 && exists bytes :: KeyThen(payload, key, bytes) && Spells(bytes, v)
  }

  /** The reader's slice bounds wrap around: the key has one of the last two 16-bit lengths, or the value is too
      long. */
  ghost predicate Overruns(payload: Text) {
    exists key, bytes :: KeyThen(payload, key, bytes) && (|key| > 65533 || TooLong(bytes))
  }

  lemma KeyParts(payload: Text, key: Text, bytes: Text)
    requires KeyThen(payload, key, bytes)
    ensures |payload| == 2 + |key| + |bytes| && FromBE16(payload) == |key|
    ensures payload[2..2 + |key|] == key && payload[2 + |key|..] == bytes
  {
  }

  lemma KeyWhole(payload: Text) returns (key: Text, bytes: Text)
    requires |payload| >= 2 && FromBE16(payload) + 2 <= |payload|
    ensures KeyThen(payload, key, bytes) && |key| == FromBE16(payload)
  {
    var n := FromBE16(payload);
    key, bytes := payload[2..2 + n], payload[2 + n..];
    assert n / 256 == payload[0] && n % 256 == payload[1];
  }

  lemma KeyBound(n: nat)
    requires n < TWO16
    ensures (2 + n) % TWO16 == if n <= 65533 then 2 + n else n - 65534
  {
    if n > 65533 {
      RemainderUnique(2 + n, TWO16, 1, n - 65534);
    }
  }

  /** Reading past a whole key. */
  lemma AttrOf(payload: Text, key: Text, bytes: Text)
    requires KeyThen(payload, key, bytes)
    ensures |key| > 65533 ==> ParseAttr(payload).Panics?
    ensures |key| <= 65533 && bytes == [] ==> ParseAttr(payload).Malformed?
    ensures |key| <= 65533 && bytes != [] ==>
              ParseAttr(payload) ==
                match ParseValue(bytes[0], bytes[1..])
                case Ok(v) => Ok((key, v))
                case Malformed => Malformed
                case Panics => Panics
  {
    hide ParseValue, FromBE16;
    KeyParts(payload, key, bytes);
    KeyBound(|key|);
  }

  lemma AttrMeaning(payload: Text, key: Text, v: Value)
    ensures ParseAttr(payload) == Ok((key, v)) <==> SpellsAttr(payload, key, v)
  {
    hide ParseAttr, ParseValue, FromBE16, KeyThen, SpellsThen;
    if ParseAttr(payload) == Ok((key, v)) {
      var k, bytes := AttrKey(payload);
      AttrOf(payload, k, bytes);
      ValueMeaning(bytes, v);
    }
    if SpellsAttr(payload, key, v) {
      var bytes :| KeyThen(payload, key, bytes) && Spells(bytes, v);
      SpelledOut(bytes, v);
      AttrOf(payload, key, bytes);
      ValueMeaning(bytes, v);
    }
  }

  lemma SpelledOut(bytes: Text, v: Value)
    requires Spells(bytes, v)
    ensures bytes != []
  {
  }

  /** What is not malformed has a whole key. */
  lemma AttrKey(payload: Text) returns (key: Text, bytes: Text)
    requires !ParseAttr(payload).Malformed?
    ensures KeyThen(payload, key, bytes)
  {
    hide ParseValue, FromBE16;
    key, bytes := KeyWhole(payload);
  }

  lemma AttrPanics(payload: Text)
    ensures ParseAttr(payload).Panics? <==> Overruns(payload)
  {
    hide ParseAttr, ParseValue, FromBE16, KeyThen, TooLong;
    if ParseAttr(payload).Panics? {
      var key, bytes := AttrKey(payload);
      AttrOf(payload, key, bytes);
      if |key| <= 65533 {
        ValuePanics(bytes);
      }
    }
    if Overruns(payload) {
      var key, bytes :| KeyThen(payload, key, bytes) && (|key| > 65533 || TooLong(bytes));
      AttrOf(payload, key, bytes);
      if |key| <= 65533 {
        TooLongIsSome(bytes);
        ValuePanics(bytes);
      }
    }
  }

  lemma TooLongIsSome(bytes: Text)
    requires TooLong(bytes)
    ensures bytes != []
  {
  }

  // ---- frames ----

  lemma FrameMeaning(s: Text, f: Frame, rest: Text)
    ensures ReadFrame(s) == Got(f, rest) <==> |f.payload| < TWO32 && s == FrameBytes(f) + rest
  {
    hide LE, FromLE;
    if |f.payload| < TWO32 && s == FrameBytes(f) + rest {
      FrameRoundTrip(f, rest);
    }
    if ReadFrame(s) == Got(f, rest) {
      FromLEBound(s[1..5]);
      Pow256Values();
      LEOfFromLE(s[1..5]);
      assert s == [s[0]] + s[1..5] + s[5..5 + |f.payload|] + s[5 + |f.payload|..];
    }
  }

  /** A frame that reading a command goes on after. */
  ghost predicate Taken(f: Frame) {
    || (f.kind == 1 && f.payload != [])
    || (f.kind == 2 && exists key, v :: SpellsAttr(f.payload, key, v))
    || f.kind == 3
  }

  /** A whole frame that stops the reading of a command, and how. */
  ghost predicate BreaksOn(f: Frame, begun: bool, why: Failure) {
    match why
    case CmdTooShort => f.kind == 1 && f.payload == []
    case BadAttr => f.kind == 2 && !Overruns(f.payload) && forall key, v :: !SpellsAttr(f.payload, key, v)
    case Crash => f.kind == 2 && Overruns(f.payload)
    case EndWithoutCmd => f.kind == 4 && !begun
    case UnknownFrame => f.kind !in {1, 2, 3, 4}
    case _ => false
  }

  lemma SomeAttr(payload: Text)
    ensures ParseAttr(payload).Ok? <==> exists key, v :: SpellsAttr(payload, key, v)
    ensures ParseAttr(payload).Malformed? <==>
              !Overruns(payload) && forall key, v :: !SpellsAttr(payload, key, v)
  {
    hide ParseAttr, SpellsAttr, Overruns;
    AttrPanics(payload);
    if ParseAttr(payload).Ok? {
      var kv := ParseAttr(payload).value;
      AttrMeaning(payload, kv.0, kv.1);
    }
    forall key, v | SpellsAttr(payload, key, v)
      ensures ParseAttr(payload).Ok?
    {
      AttrMeaning(payload, key, v);
    }
  }

  lemma TakenMeaning(f: Frame)
    ensures Taken(f) <==> Absorbs(f)
  {
    hide ParseAttr, SpellsAttr;
    SomeAttr(f.payload);
  }

  /** The reader goes on, returns or gives up on a frame for exactly these reasons. */
  lemma ReactMeaning(acc: Acc, f: Frame, why: Failure)
    ensures React(acc, f).Continue? <==> Taken(f)
    ensures React(acc, f) == Finish(Failed(why)) <==> BreaksOn(f, acc.code != [], why)
    ensures React(acc, f).Finish? && React(acc, f).outcome.Command? <==> f.kind == 4 && acc.code != []
  {
    hide ParseAttr, SpellsAttr, Overruns;
    SomeAttr(f.payload);
    AttrPanics(f.payload);
  }

  // ---- streams ----

  ghost predicate WellFormed(frames: seq<Frame>) {
    forall i | 0 <= i < |frames| :: |frames[i].payload| < TWO32 && Taken(frames[i])
  }

  lemma WellFormedMeaning(frames: seq<Frame>)
    ensures WellFormed(frames) <==> AllFit(frames) && AllAbsorb(frames)
  {
    hide Taken, Absorbs;
    forall i | 0 <= i < |frames|
      ensures Taken(frames[i]) <==> Absorbs(frames[i])
    {
      TakenMeaning(frames[i]);
    }
  }

  predicate Begun(frames: seq<Frame>) {
    exists i | 0 <= i < |frames| :: frames[i].kind == 1
  }

  /** What the stream holds after the last frame that was taken in, and why that ends the reading. */
  ghost predicate Stops(begun: bool, tail: Text, why: Failure) {
    match why
    case Eof => tail == []
    case UnexpectedEof => 0 < |tail| < 5
    case PayloadCut => |tail| >= 5 && 5 + FromLE(tail[1..5]) > |tail|
    case _ => exists f: Frame, rest :: |f.payload| < TWO32 && tail == FrameBytes(f) + rest && BreaksOn(f, begun, why)
  }

  /** The frames up to the first one that is not taken in. */
  lemma {:induction false} FrontFrames(s: Text) returns (frames: seq<Frame>, tail: Text)
    ensures AllFit(frames) && AllAbsorb(frames) && s == AllBytes(frames) + tail
    ensures ReadFrame(tail).Got? ==> !Absorbs(ReadFrame(tail).frame)
    decreases |s|
  {
    hide FrameBytes, ReadFrame, Absorbs;
    var r := ReadFrame(s);
    if r.Got? && Absorbs(r.frame) {
      FrameMeaning(s, r.frame, r.rest);
      var more, t := FrontFrames(r.rest);
      frames, tail := [r.frame] + more, t;
      assert frames[1..] == more;
      assert AllBytes(frames) == FrameBytes(r.frame) + AllBytes(more);
    } else {
      frames, tail := [], s;
    }
  }

  lemma {:induction false} BegunMeaning(frames: seq<Frame>, acc: Acc)
    requires AllAbsorb(frames)
    ensures AbsorbAll(acc, frames).code != [] <==> acc.code != [] || Begun(frames)
    decreases |frames|
  {
    hide ParseAttr;
    if frames != [] {
      var rest := frames[1..];
      BegunMeaning(rest, Absorb(acc, frames[0]));
      assert forall i | 0 < i < |frames| :: frames[i] == rest[i - 1];
      if Begun(rest) {
        var i :| 0 <= i < |rest| && rest[i].kind == 1;
        assert frames[i + 1].kind == 1;
      }
      assert frames[0].kind == 1 ==> Begun(frames);
    }
  }

  /** Reading what is left is reading one more frame, or failing to. */
  lemma LastStep(tail: Text, acc: Acc, why: Failure)
    requires ReadFrame(tail).Got? ==> React(acc, ReadFrame(tail).frame).Finish?
    ensures Decode(tail, acc).0 == Failed(why) <==> Stops(acc.code != [], tail, why)
  {
    hide FrameBytes, FromLE, BreaksOn, ParseAttr;
    var r := ReadFrame(tail);
    if r.Got? {
      FrameMeaning(tail, r.frame, r.rest);
      ReactMeaning(acc, r.frame, why);
      forall f: Frame, rest | |f.payload| < TWO32 && tail == FrameBytes(f) + rest
        ensures f == r.frame
      {
        FrameMeaning(tail, f, rest);
      }
      NoCut(r.frame, acc, why);
    } else {
      forall f: Frame, rest | |f.payload| < TWO32
        ensures tail != FrameBytes(f) + rest
      {
        FrameMeaning(tail, f, rest);
      }
    }
  }

  lemma NoCut(f: Frame, acc: Acc, why: Failure)
    ensures why in {Eof, UnexpectedEof, PayloadCut} ==> React(acc, f) != Finish(Failed(why))
  {
    hide ParseAttr;
  }

  /** From the first frame: some frames that are all taken in, then what stops the reading. */
  lemma FromTheFront(frames: seq<Frame>, tail: Text, why: Failure)
    requires AllFit(frames) && AllAbsorb(frames) && (ReadFrame(tail).Got? ==> !Taken(ReadFrame(tail).frame))
    ensures Decode(AllBytes(frames) + tail, EMPTY) == Decode(tail, AbsorbAll(EMPTY, frames))
    ensures Decode(AllBytes(frames) + tail, EMPTY).0 == Failed(why) <==> Stops(Begun(frames), tail, why)
  {
    hide FrameBytes, ReadFrame, Decode, Stops, Absorbs, React, AbsorbAll, AllFit, AllAbsorb, Taken;
    DecodeFrames(frames, EMPTY, tail);
    BegunMeaning(frames, EMPTY);
    var acc := AbsorbAll(EMPTY, frames);
    if ReadFrame(tail).Got? {
      ReactMeaning(acc, ReadFrame(tail).frame, why);
    }
    LastStep(tail, acc, why);
  }

  /** What stops the reading is no frame that is taken in. */
  lemma StopsHere(begun: bool, tail: Text, why: Failure)
    requires Stops(begun, tail, why)
    ensures ReadFrame(tail).Got? ==> !Taken(ReadFrame(tail).frame)
  {
    hide FrameBytes, SpellsAttr, Overruns;
    var r := ReadFrame(tail);
    if r.Got? && |tail| >= 5 && !why.PayloadCut? {
      var f: Frame, rest :| |f.payload| < TWO32 && tail == FrameBytes(f) + rest && BreaksOn(f, begun, why);
      FrameMeaning(tail, f, rest);
      SomeAttr(f.payload);
      AttrPanics(f.payload);
    }
  }

  /** Reading a command fails, with this failure, exactly when the stream begins with frames that are taken in and
      then holds this failure's cause. */
  lemma FailsIff(s: Text, why: Failure)
    ensures Decode(s, EMPTY).0 == Failed(why) <==>
              exists frames, tail ::
                WellFormed(frames) && s == AllBytes(frames) + tail && Stops(Begun(frames), tail, why)
  {
    hide FrameBytes, ReadFrame, Decode, Stops, Absorbs, WellFormed, Begun, Taken, AllFit, AllAbsorb;
    if Decode(s, EMPTY).0 == Failed(why) {
      var frames, tail := FrontFrames(s);
      WellFormedMeaning(frames);
      if ReadFrame(tail).Got? {
        TakenMeaning(ReadFrame(tail).frame);
      }
      FromTheFront(frames, tail, why);
    }
    forall frames, tail |
      WellFormed(frames) && s == AllBytes(frames) + tail && Stops(Begun(frames), tail, why)
      ensures Decode(s, EMPTY).0 == Failed(why)
    {
      WellFormedMeaning(frames);
      StopsHere(Begun(frames), tail, why);
      FromTheFront(frames, tail, why);
    }
  }

  // ---- the command that is read ----

  /** The last code, each attribute from the last frame of its key, and all data in order. */
  ghost predicate Gathers(frames: seq<Frame>, code: Byte, attrs: Attrs, data: Text) {
    && LastCodeIs(frames, code)
    && (forall key, v :: (key in attrs && attrs[key] == v) <==> LastAttrIs(frames, key, v))
    && data == Joined(OfKind(frames, 3))
  }

  ghost predicate LastCodeIs(frames: seq<Frame>, code: Byte) {
    exists i | 0 <= i < |frames| ::
      && frames[i].kind == 1 && |frames[i].payload| >= 1 && frames[i].payload[0] == code
      && forall j | i < j < |frames| :: frames[j].kind != 1
  }

  ghost predicate LastAttrIs(frames: seq<Frame>, key: Text, v: Value) {
    exists i | 0 <= i < |frames| ::
      && frames[i].kind == 2 && SpellsAttr(frames[i].payload, key, v)
      && forall j, w | i < j < |frames| :: !(frames[j].kind == 2 && SpellsAttr(frames[j].payload, key, w))
  }

  ghost predicate CodeSoFar(frames: seq<Frame>, code: seq<Byte>) {
    |code| <= 1 && forall c: Byte :: code == [c] <==> LastCodeIs(frames, c)
  }

  ghost predicate AttrsSoFar(frames: seq<Frame>, attrs: Attrs) {
    forall key, v :: (key in attrs && attrs[key] == v) <==> LastAttrIs(frames, key, v)
  }

  lemma CodeSnoc(frames: seq<Frame>, f: Frame, c: Byte)
    requires f.kind == 1 ==> f.payload != []
    ensures LastCodeIs(frames + [f], c) <==> if f.kind == 1 then f.payload[0] == c else LastCodeIs(frames, c)
  {
    var more, n := frames + [f], |frames|;
    assert more[n] == f;
    if f.kind != 1 && LastCodeIs(frames, c) {
      var i :| 0 <= i < n && frames[i].kind == 1 && |frames[i].payload| >= 1 && frames[i].payload[0] == c
               && forall j | i < j < n :: frames[j].kind != 1;
      assert more[i] == frames[i];
    }
    if f.kind != 1 && LastCodeIs(more, c) {
      var i :| 0 <= i < |more| && more[i].kind == 1 && |more[i].payload| >= 1 && more[i].payload[0] == c
               && forall j | i < j < |more| :: more[j].kind != 1;
      assert frames[i] == more[i] && forall j | i < j < n :: frames[j] == more[j];
    }
  }

  lemma AttrSnoc(frames: seq<Frame>, f: Frame, key: Text, v: Value)
    ensures LastAttrIs(frames + [f], key, v) <==>
              if f.kind == 2 && exists w :: SpellsAttr(f.payload, key, w) then SpellsAttr(f.payload, key, v)
              else LastAttrIs(frames, key, v)
  {
    hide SpellsAttr;
    var more, n := frames + [f], |frames|;
    assert more[n] == f;
    if LastAttrIs(frames, key, v) {
      var i :| 0 <= i < n && frames[i].kind == 2 && SpellsAttr(frames[i].payload, key, v)
               && forall j, w | i < j < n :: !(frames[j].kind == 2 && SpellsAttr(frames[j].payload, key, w));
      assert more[i] == frames[i];
    }
    if LastAttrIs(more, key, v) {
      var i :| 0 <= i < |more| && more[i].kind == 2 && SpellsAttr(more[i].payload, key, v)
               && forall j, w | i < j < |more| :: !(more[j].kind == 2 && SpellsAttr(more[j].payload, key, w));
      if i < n {
        assert frames[i] == more[i] && forall j | i < j < n :: frames[j] == more[j];
      }
    }
  }

  lemma {:induction false} Gathered(frames: seq<Frame>)
    requires AllAbsorb(frames)
    ensures var acc := AbsorbAll(EMPTY, frames); CodeSoFar(frames, acc.code) && AttrsSoFar(frames, acc.attrs)
    decreases |frames|
  {
    if frames == [] {
    } else {
      hide ParseAttr, SpellsAttr, LastCodeIs, LastAttrIs;
      var most, f := frames[..|frames|-1], frames[|frames|-1];
      assert frames == most + [f];
      Gathered(most);
      AbsorbSnoc(EMPTY, most, f);
      var before := AbsorbAll(EMPTY, most);
      forall c: Byte {
        CodeSnoc(most, f, c);
      }
      forall key, v
        ensures (key in Absorb(before, f).attrs && Absorb(before, f).attrs[key] == v) <==> LastAttrIs(frames, key, v)
      {
        AttrSnoc(most, f, key, v);
        OneAttr(f, key);
        AttrMeaning(f.payload, key, v);
      }
    }
  }

  lemma OneAttr(f: Frame, key: Text)
    ensures (exists w :: SpellsAttr(f.payload, key, w)) <==>
              ParseAttr(f.payload).Ok? && ParseAttr(f.payload).value.0 == key
  {
    hide ParseAttr, SpellsAttr;
    forall w {
      AttrMeaning(f.payload, key, w);
    }
    var p := ParseAttr(f.payload);
    if p.Ok? && p.value.0 == key {
      assert p == Ok((key, p.value.1));
    }
  }

  lemma GathersOne(frames: seq<Frame>, code: Byte, attrs: Attrs, data: Text, acc: Acc)
    requires CodeSoFar(frames, acc.code) && AttrsSoFar(frames, acc.attrs) && acc.data == Joined(OfKind(frames, 3))
    ensures Gathers(frames, code, attrs, data) <==> acc == Acc([code], attrs, data)
  {
    hide LastCodeIs, LastAttrIs, Joined, OfKind;
    if Gathers(frames, code, attrs, data) {
      forall key | key in attrs
        ensures key in acc.attrs && acc.attrs[key] == attrs[key]
      {
        assert LastAttrIs(frames, key, attrs[key]);
      }
      forall key | key in acc.attrs
        ensures key in attrs
      {
        assert LastAttrIs(frames, key, acc.attrs[key]);
      }
      assert attrs == acc.attrs;
    }
  }

  /** The stream's first command, and the unread rest. */
  ghost predicate Holds(s: Text, code: Byte, attrs: Attrs, data: Text, rest: Text) {
    exists frames, end: Frame ::
      && WellFormed(frames) && Gathers(frames, code, attrs, data)
      && end.kind == 4 && |end.payload| < TWO32
      && s == AllBytes(frames) + FrameBytes(end) + rest
  }

  lemma EndStep(acc: Acc, tail: Text, code: Byte, attrs: Attrs, data: Text, rest: Text)
    requires ReadFrame(tail).Got? ==> React(acc, ReadFrame(tail).frame).Finish?
    ensures Decode(tail, acc) == (Command(code, attrs, data), rest) <==>
              && ReadFrame(tail).Got? && ReadFrame(tail).frame.kind == 4 && ReadFrame(tail).rest == rest
              && acc.code != [] && acc.code[0] == code && acc.attrs == attrs && acc.data == data
  {
    hide ParseAttr, ReadFrame;
  }

  /** A command is read exactly from the streams that begin with frames that are all taken in, a CMD among them, and an
      END frame; its parts are the ones those frames carry. */
  lemma ReadsIff(s: Text, code: Byte, attrs: Attrs, data: Text, rest: Text)
    ensures Decode(s, EMPTY) == (Command(code, attrs, data), rest) <==> Holds(s, code, attrs, data, rest)
  {
    hide FrameBytes, ReadFrame, Decode, Absorbs, WellFormed, Begun, Taken, AllFit, AllAbsorb, Gathers, React, AbsorbAll;
    if Decode(s, EMPTY) == (Command(code, attrs, data), rest) {
      var frames, tail := FrontFrames(s);
      CommandAt(frames, tail, code, attrs, data, rest);
      var r := ReadFrame(tail);
      FrameMeaning(tail, r.frame, r.rest);
      assert s == AllBytes(frames) + FrameBytes(r.frame) + rest;
    }
    forall frames, end: Frame |
      && WellFormed(frames) && Gathers(frames, code, attrs, data)
      && end.kind == 4 && |end.payload| < TWO32
      && s == AllBytes(frames) + FrameBytes(end) + rest
      ensures Decode(s, EMPTY) == (Command(code, attrs, data), rest)
    {
      WellFormedMeaning(frames);
      var tail := FrameBytes(end) + rest;
      assert s == AllBytes(frames) + tail;
      FrameMeaning(tail, end, rest);
      EndNotAbsorbed(end);
      CommandAt(frames, tail, code, attrs, data, rest);
    }
  }

  lemma EndNotAbsorbed(f: Frame)
    ensures f.kind == 4 ==> !Absorbs(f)
    ensures !Absorbs(f) ==> forall acc :: React(acc, f).Finish?
  {
    hide ParseAttr;
  }

  lemma CommandAt(frames: seq<Frame>, tail: Text, code: Byte, attrs: Attrs, data: Text, rest: Text)
    requires AllFit(frames) && AllAbsorb(frames) && (ReadFrame(tail).Got? ==> !Absorbs(ReadFrame(tail).frame))
    ensures WellFormed(frames)
    ensures Decode(AllBytes(frames) + tail, EMPTY) == (Command(code, attrs, data), rest) <==>
              && ReadFrame(tail).Got? && ReadFrame(tail).frame.kind == 4 && ReadFrame(tail).rest == rest
              && Gathers(frames, code, attrs, data)
  {
    hide FrameBytes, ReadFrame, Decode, Absorbs, WellFormed, AllFit, AllAbsorb, Gathers, React, AbsorbAll;
    hide CodeSoFar, AttrsSoFar, Joined, OfKind, LastCode, Overrides;
    WellFormedMeaning(frames);
    DecodeFrames(frames, EMPTY, tail);
    Gathered(frames);
    AbsorbByKind(EMPTY, frames);
    var acc := AbsorbAll(EMPTY, frames);
    assert acc.data == [] + Joined(OfKind(frames, 3)) == Joined(OfKind(frames, 3));
    if ReadFrame(tail).Got? {
      EndNotAbsorbed(ReadFrame(tail).frame);
    }
    EndStep(acc, tail, code, attrs, data, rest);
    GathersOne(frames, code, attrs, data, acc);
    CodeShape(frames, acc.code);
  }

  lemma CodeShape(frames: seq<Frame>, code: seq<Byte>)
    requires CodeSoFar(frames, code)
    ensures forall c: Byte :: code == [c] <==> code != [] && code[0] == c
  {
  }
}

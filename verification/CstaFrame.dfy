/**
  CSTA-XML message framing of Annex J of ECMA-323, as the collector implements it
  (acd-onprem-collector/src/csta-xml-frame.ts): an encoder, and a reader that reassembles
  frames from arbitrary TCP chunks.

  Buffers are sequences of bytes and strings are sequences of UTF-16 code units, so the two
  `'ascii'` conversions are visible: encoding keeps the low eight bits of a code unit,
  decoding the low seven bits of a byte.
 */
module CstaFrame {
  import opened Basics

  type Byte = b: int | 0 <= b < 0x100
  type CodeUnit = u: int | 0 <= u < 0x1_0000
  type Text = seq<CodeUnit>

  const FRAME_PREFIX_LENGTH := 4
  const INVOKE_ID_LENGTH := 4
  const MAX_LENGTH := 0xFFFF

  datatype Frame = Frame(invokeId: Text, xml: Text)

  // ----- Encoder -----

  function ToBytes(text: Text): seq<Byte> {
    seq(|text|, i requires 0 <= i < |text| => text[i] % 0x100)
  }

  function FromBytes(bytes: seq<Byte>): Text {
    seq(|bytes|, i requires 0 <= i < |bytes| => bytes[i] % 0x80)
  }

  datatype Encoding = Encoded(bytes: seq<Byte>) | BadInvokeId | LengthOutOfRange

  function Prefix(header0: Byte, header1: Byte, length: nat): seq<Byte>
    requires length <= MAX_LENGTH
  {
    [header0, header1, length / 0x100, length % 0x100]
  }

  function EncodeFrame(invokeId: Text, xml: Text): Encoding {
    if |invokeId| != INVOKE_ID_LENGTH then BadInvokeId
    else
      var length := FRAME_PREFIX_LENGTH + |invokeId| + |xml|;
      if length > MAX_LENGTH then LengthOutOfRange
      else Encoded(Prefix(0, 0, length) + ToBytes(invokeId) + ToBytes(xml))
  }

  // ----- One turn of the reader's loop -----

  /** `buffer.subarray(lo, hi)`, which clips both ends to the buffer. */
  function Subarray(buffer: seq<Byte>, lo: nat, hi: nat): seq<Byte> {
    var hi := if hi < |buffer| then hi else |buffer|;
    if lo < hi then buffer[lo..hi] else []
  }

  function LengthField(buffer: seq<Byte>): nat
    requires |buffer| >= FRAME_PREFIX_LENGTH
  {
    (buffer[2] as int) * 0x100 + buffer[3]
  }

  /** The two `break` guards both fail: a whole frame is buffered. */
  predicate HasFrame(buffer: seq<Byte>) {
    |buffer| >= FRAME_PREFIX_LENGTH && |buffer| >= LengthField(buffer)
  }

  predicate IsPlain(buffer: seq<Byte>)
    requires |buffer| >= FRAME_PREFIX_LENGTH
  {
    buffer[0] == 0 && buffer[1] == 0
  }

  function HeadFrames(buffer: seq<Byte>): seq<Frame>
    requires HasFrame(buffer)
  {
    if IsPlain(buffer) then
      [Frame(FromBytes(Subarray(buffer, 4, 8)), FromBytes(Subarray(buffer, 8, LengthField(buffer))))]
    else []
  }

  function AfterFrame(buffer: seq<Byte>): seq<Byte>
    requires HasFrame(buffer)
  {
    buffer[LengthField(buffer)..]
  }

  // ----- The loop -----

  /** Where the loop ends: the frames read, the bytes kept, and whether it ends at all. */
  datatype Reading = Reading(frames: seq<Frame>, rest: seq<Byte>, stuck: bool)

  function Read(buffer: seq<Byte>): Reading
    decreases |buffer|
  {
    if !HasFrame(buffer) then Reading([], buffer, false)
    else if LengthField(buffer) == 0 then Reading([], buffer, true)
    else
      var r := Read(AfterFrame(buffer));
      Reading(HeadFrames(buffer) + r.frames, r.rest, r.stuck)
  }

  /** `stuck` is the loop's only way not to end: a turn that leaves the buffer as it was. */
  lemma {:induction false} StuckIsAFixpoint(buffer: seq<Byte>)
    ensures var rest := Read(buffer).rest;
            if Read(buffer).stuck then HasFrame(rest) && AfterFrame(rest) == rest else !HasFrame(rest)
    decreases |buffer|
  {
    if HasFrame(buffer) && LengthField(buffer) > 0 {
      StuckIsAFixpoint(AfterFrame(buffer));
    }
  }

  /**
    A walk over the incoming bytes alone: no complete frame met from here on declares a
    length of 0.
   */
  predicate Progresses(stream: seq<Byte>)
    decreases |stream|
  {
    HasFrame(stream) ==> LengthField(stream) > 0 && Progresses(AfterFrame(stream))
  }

  /** The loop fails to end exactly on the streams that hold a complete frame of length 0. */
  lemma {:induction false} SpinsExactly(stream: seq<Byte>)
    ensures Read(stream).stuck <==> !Progresses(stream)
    decreases |stream|
  {
    if HasFrame(stream) && LengthField(stream) > 0 {
      SpinsExactly(AfterFrame(stream));
    }
  }

  /** The buffer after `n` turns of the loop, or where the loop ended before that. */
  function Turns(buffer: seq<Byte>, n: nat): seq<Byte> {
    if n == 0 || !HasFrame(buffer) then buffer else Turns(AfterFrame(buffer), n - 1)
  }

  lemma {:induction false} SpinningGoesOn(stream: seq<Byte>, n: nat)
    requires !Progresses(stream)
    ensures HasFrame(Turns(stream, n))
  {
    if n > 0 {
      SpinningGoesOn(AfterFrame(stream), n - 1);
    }
  }

  lemma {:induction false} ProgressEnds(stream: seq<Byte>) returns (n: nat)
    requires Progresses(stream)
    ensures n <= |stream| && !HasFrame(Turns(stream, n)) && Turns(stream, n) == Read(stream).rest
    decreases |stream|
  {
    if HasFrame(stream) {
      n := ProgressEnds(AfterFrame(stream));
      n := n + 1;
    } else {
      n := 0;
    }
  }

  /**
    Of the loop itself: its guards let every turn through, for ever, exactly on those
    streams.  On all others it ends within as many turns as there are bytes, where `Read` says.
   */
  lemma LoopsForeverExactly(stream: seq<Byte>)
    ensures (forall n: nat :: HasFrame(Turns(stream, n))) <==> !Progresses(stream)
    ensures Progresses(stream) ==> exists n: nat :: n <= |stream| && Turns(stream, n) == Read(stream).rest
  {
    if Progresses(stream) {
      var n := ProgressEnds(stream);
    } else {
      forall n: nat
        ensures HasFrame(Turns(stream, n))
      {
        SpinningGoesOn(stream, n);
      }
    }
  }

  /** Four zero bytes are such a stream, by themselves or behind any frames that progress. */
  lemma ZeroLengthSpins(stream: seq<Byte>)
    requires Progresses(stream) && Read(stream).rest == []
    ensures Read([0, 0, 0, 0]).stuck && Read(stream + [0, 0, 0, 0]).stuck
  {
    var zeros: seq<Byte> := [0, 0, 0, 0];
    SpinsExactly(stream);
    ReadAppend(stream, zeros);
    assert [] + zeros == zeros;
  }

  lemma ReadStep(buffer: seq<Byte>)
    requires HasFrame(buffer) && LengthField(buffer) > 0
    ensures Read(buffer).frames == HeadFrames(buffer) + Read(AfterFrame(buffer)).frames
    ensures Read(buffer).rest == Read(AfterFrame(buffer)).rest
    ensures Read(buffer).stuck == Read(AfterFrame(buffer)).stuck
  {
  }

  lemma Assoc<X>(x: seq<X>, y: seq<X>, z: seq<X>)
    ensures x + (y + z) == (x + y) + z
  {
  }

  class Reader {
    var buffer: seq<Byte>

    constructor ()
      ensures buffer == []
    {
      buffer := [];
    }

    /** The precondition is exactly that the call returns. */
    method Push(chunk: seq<Byte>) returns (frames: seq<Frame>)
      requires Progresses(buffer + chunk)
      modifies this
      ensures frames == Read(old(buffer) + chunk).frames
      ensures buffer == Read(old(buffer) + chunk).rest
    {
      buffer := buffer + chunk;
      frames := [];
      while HasFrame(buffer)
        invariant Progresses(buffer)
        invariant Read(old(buffer) + chunk).frames == frames + Read(buffer).frames
        invariant Read(old(buffer) + chunk).rest == Read(buffer).rest
        decreases |buffer|
      {
        ReadStep(buffer);
        Assoc(frames, HeadFrames(buffer), Read(AfterFrame(buffer)).frames);
        frames := frames + HeadFrames(buffer);
        buffer := AfterFrame(buffer);
      }
    }
  }

  // ----- Chunking -----

  function Concat(chunks: seq<seq<Byte>>): seq<Byte> {
    if chunks == [] then [] else chunks[0] + Concat(chunks[1..])
  }

  /** Successive pushes: the frames of all of them, and the buffer after the last. */
  function PushAll(buffer: seq<Byte>, chunks: seq<seq<Byte>>): Reading
    decreases |chunks|
  {
    if chunks == [] then Reading([], buffer, false)
    else
      var r := Read(buffer + chunks[0]);
      if r.stuck then r
      else
        var more := PushAll(r.rest, chunks[1..]);
        Reading(r.frames + more.frames, more.rest, more.stuck)
  }

  /**
    Every plain frame the reader meets either holds its whole Invoke ID (length field at
    least 8) or is all that is left of the stream.
   */
  predicate SelfContained(stream: seq<Byte>)
    decreases |stream|
  {
    HasFrame(stream) && LengthField(stream) > 0 ==>
      && (IsPlain(stream) ==> LengthField(stream) >= 8 || |stream| <= Max(4, LengthField(stream)))
      && SelfContained(AfterFrame(stream))
  }

  /** Bytes that arrive later do not change where the frame at the head of the buffer ends. */
  lemma HeadIsStable(a: seq<Byte>, b: seq<Byte>)
    requires HasFrame(a)
    ensures HasFrame(a + b) && LengthField(a + b) == LengthField(a) && IsPlain(a + b) == IsPlain(a)
    ensures AfterFrame(a + b) == AfterFrame(a) + b
    ensures !IsPlain(a) || LengthField(a) >= 8 || b == [] ==> HeadFrames(a + b) == HeadFrames(a)
  {
    if b == [] {
      assert a + b == a;
    } else if IsPlain(a) && LengthField(a) >= 8 {
      assert Subarray(a + b, 4, 8) == Subarray(a, 4, 8);
      assert Subarray(a + b, 8, LengthField(a)) == Subarray(a, 8, LengthField(a));
    }
  }

  /** What a second push reads after a first one that returned. */
  function ReadLater(a: seq<Byte>, b: seq<Byte>): Reading {
    Read(Read(a).rest + b)
  }

  /** Where reading ends never depends on when the bytes arrive. */
  lemma {:induction false} ReadAppend(a: seq<Byte>, b: seq<Byte>)
    ensures Read(a).stuck ==> Read(a + b).stuck
    ensures !Read(a).stuck ==>
              Read(a + b).stuck == ReadLater(a, b).stuck && Read(a + b).rest == ReadLater(a, b).rest
    decreases |a|
  {
    if HasFrame(a) {
      HeadIsStable(a, b);
      if LengthField(a) > 0 {
        ReadAppend(AfterFrame(a), b);
      }
    }
  }

  lemma FirstFrameAppend(a: seq<Byte>, b: seq<Byte>)
    requires HasFrame(a) && LengthField(a) > 0 && SelfContained(a + b)
    ensures SelfContained(AfterFrame(a) + b)
    ensures Read(a + b).frames == HeadFrames(a) + Read(AfterFrame(a) + b).frames
  {
    HeadIsStable(a, b);
    assert !IsPlain(a) || LengthField(a) >= 8 || b == [];
  }

  /** Nor, on a self-contained stream, does what is read. */
  lemma {:induction false} ReadAppendFrames(a: seq<Byte>, b: seq<Byte>)
    requires SelfContained(a + b) && !Read(a).stuck
    ensures Read(a + b).frames == Read(a).frames + ReadLater(a, b).frames
    ensures SelfContained(Read(a).rest + b)
    decreases |a|
  {
    if HasFrame(a) {
      var tail := AfterFrame(a);
      FirstFrameAppend(a, b);
      ReadAppendFrames(tail, b);
      ReadStep(a);
      Assoc(HeadFrames(a), Read(tail).frames, ReadLater(tail, b).frames);
    }
  }

  lemma {:induction false} PushAllReads(buffer: seq<Byte>, chunks: seq<seq<Byte>>)
    requires !HasFrame(buffer)
    requires SelfContained(buffer + Concat(chunks)) && !Read(buffer + Concat(chunks)).stuck
    ensures PushAll(buffer, chunks) == Read(buffer + Concat(chunks))
    decreases |chunks|
  {
    if chunks == [] {
      assert buffer + Concat(chunks) == buffer;
    } else {
      var a, b := buffer + chunks[0], Concat(chunks[1..]);
      assert a + b == buffer + Concat(chunks);
      ReadAppend(a, b);
      ReadAppendFrames(a, b);
      StuckIsAFixpoint(a);
      PushAllReads(Read(a).rest, chunks[1..]);
    }
  }

  ghost predicate ChangesReading(a: seq<Byte>, b: seq<Byte>) {
    && |a| >= 4
    && !Read(a).stuck
    && Read(a).frames + ReadLater(a, b).frames != Read(a + b).frames
  }

  /** A short plain frame followed by more bytes: cut right after it. */
  lemma CutAfterShortFrame(stream: seq<Byte>)
    requires HasFrame(stream) && IsPlain(stream) && 0 < LengthField(stream) < 8
    requires |stream| > Max(4, LengthField(stream)) && !Read(stream).stuck
    ensures var cut := Max(4, LengthField(stream)); ChangesReading(stream[..cut], stream[cut..])
  {
    var cut := Max(4, LengthField(stream));
    var a, b := stream[..cut], stream[cut..];
    assert a + b == stream;
    ReadAppend(a, b);
    ShortFrameIds(stream);
    FirstFrameDiffers(a, b);
  }

  /** If the cut changes the first frame, it changes what is read. */
  lemma FirstFrameDiffers(a: seq<Byte>, b: seq<Byte>)
    requires HasFrame(a) && LengthField(a) > 0 && HasFrame(a + b) && LengthField(a + b) > 0
    requires |HeadFrames(a)| == |HeadFrames(a + b)| == 1 && HeadFrames(a)[0] != HeadFrames(a + b)[0]
    ensures Read(a).frames + ReadLater(a, b).frames != Read(a + b).frames
  {
    ReadStep(a);
    ReadStep(a + b);
    var more, whole := Read(AfterFrame(a)).frames, Read(AfterFrame(a + b)).frames;
    Assoc(HeadFrames(a), more, ReadLater(a, b).frames);
    DifferentHeads(HeadFrames(a), more + ReadLater(a, b).frames, HeadFrames(a + b), whole);
  }

  lemma DifferentHeads<X>(x: seq<X>, y: seq<X>, x': seq<X>, y': seq<X>)
    requires |x| == |x'| == 1 && x[0] != x'[0]
    ensures x + y != x' + y'
  {
    assert (x + y)[0] == x[0] && (x' + y')[0] == x'[0];
  }

  lemma ShortFrameIds(stream: seq<Byte>)
    requires HasFrame(stream) && IsPlain(stream) && 0 < LengthField(stream) < 8
    requires |stream| > Max(4, LengthField(stream))
    ensures var a := stream[..Max(4, LengthField(stream))];
            && HasFrame(a) && LengthField(a) == LengthField(stream)
            && |HeadFrames(a)| == |HeadFrames(stream)| == 1
            && |HeadFrames(a)[0].invokeId| < |HeadFrames(stream)[0].invokeId|
  {
  }

  /** A cut that changes the reading of what follows the first frame changes the whole reading. */
  lemma CutFurtherOn(stream: seq<Byte>, a: seq<Byte>, b: seq<Byte>)
    requires HasFrame(stream) && LengthField(stream) > 0 && AfterFrame(stream) == a + b
    requires IsPlain(stream) ==> LengthField(stream) >= 8
    requires ChangesReading(a, b)
    ensures ChangesReading(stream[..LengthField(stream)] + a, b)
    ensures stream[..LengthField(stream)] + a + b == stream
  {
    var a' := stream[..LengthField(stream)] + a;
    assert a' + b == stream by { assert stream == stream[..LengthField(stream)] + AfterFrame(stream); }
    assert HasFrame(a') && AfterFrame(a') == a;
    HeadIsStable(a', b);
    ReadStep(a');
    ReadStep(stream);
    var h := HeadFrames(stream);
    var r, r' := Read(a).frames + ReadLater(a, b).frames, Read(a + b).frames;
    Assoc(h, Read(a).frames, ReadLater(a, b).frames);
    assert (h + r)[|h|..] == r && (h + r')[|h|..] == r';
  }

  /** A stream that is not self-contained has a cut that changes what is read. */
  lemma {:induction false} HarmfulCut(stream: seq<Byte>) returns (a: seq<Byte>, b: seq<Byte>)
    requires !SelfContained(stream) && !Read(stream).stuck
    ensures a + b == stream && ChangesReading(a, b)
    decreases |stream|
  {
    var length := LengthField(stream);
    if IsPlain(stream) && length < 8 && |stream| > Max(4, length) {
      CutAfterShortFrame(stream);
      a, b := stream[..Max(4, length)], stream[Max(4, length)..];
    } else {
      a, b := HarmfulCut(AfterFrame(stream));
      CutFurtherOn(stream, a, b);
      a := stream[..length] + a;
    }
  }

  /**
    The way TCP cuts a stream up is irrelevant to the frames read if and only if the
    stream is self-contained.  (On a stream that holds a complete frame of
    length 0 neither one push nor the chunked pushes all return: see `SpinsExactly` and
    `ReadAppend`.)
   */
  lemma ChunkingIrrelevant(stream: seq<Byte>)
    requires Progresses(stream)
    ensures SelfContained(stream) <==>
            forall chunks :: Concat(chunks) == stream ==> PushAll([], chunks) == Read(stream)
  {
    SpinsExactly(stream);
    if SelfContained(stream) {
      forall chunks | Concat(chunks) == stream
        ensures PushAll([], chunks) == Read(stream)
      {
        assert [] + Concat(chunks) == stream;
        PushAllReads([], chunks);
      }
    } else {
      var a, b := HarmfulCut(stream);
      PushTwo(a, b);
      assert Concat([a, b]) == stream;
    }
  }

  /**
    Eight bytes for which the cut matters: a plain frame of declared length 5 is read with
    Invoke ID "1234" when three more bytes have arrived with it, and with "1" when not.
   */
  lemma ShortFrameDependsOnCut(stream: seq<Byte>)
    requires stream == [0, 0, 0, 5, 49, 50, 51, 52]
    ensures Progresses(stream) && !SelfContained(stream)
    ensures PushAll([], [stream]).frames == [Frame([49, 50, 51, 52], [])]
    ensures PushAll([], [stream[..5], stream[5..]]).frames == [Frame([49], [])]
  {
    var a, b := stream[..5], stream[5..];
    assert AfterFrame(stream) == b == [50, 51, 52] && AfterFrame(a) == [];
    assert Read(b) == Reading([], b, false) && Read([]) == Reading([], [], false);
    assert Subarray(stream, 4, 8) == [49, 50, 51, 52] && Subarray(a, 4, 8) == [49];
    assert Subarray(stream, 8, 5) == [] && Subarray(a, 8, 5) == [];
    assert FromBytes([49, 50, 51, 52]) == [49, 50, 51, 52] && FromBytes([49]) == [49] && FromBytes([]) == [];
    PushTwo(a, b);
    PushOne(stream);
    assert [] + b == b;
  }

  lemma PushOne(a: seq<Byte>)
    ensures PushAll([], [a]).frames == Read(a).frames
  {
    assert [] + a == a;
  }

  lemma PushTwo(a: seq<Byte>, b: seq<Byte>)
    requires !Read(a).stuck
    ensures Concat([a, b]) == a + b
    ensures PushAll([], [a, b]).frames == Read(a).frames + ReadLater(a, b).frames
  {
    var chunks, last: seq<seq<Byte>> := [a, b], [b];
    assert chunks[1..] == last && last[1..] == [];
    assert Concat(last) == b;
    assert [] + a == a;
    assert PushAll(Read(a).rest, last).frames == Read(Read(a).rest + b).frames;
  }

  // ----- Reading back what was written -----

  /** What a peer may put on the wire: encoded frames, and frames of another kind. */
  datatype WireItem =
    | PlainFrame(invokeId: Text, xml: Text)
    | OtherFrame(header0: Byte, header1: Byte, payload: seq<Byte>)

  predicate ValidItem(item: WireItem) {
    match item
    case PlainFrame(invokeId, xml) => EncodeFrame(invokeId, xml).Encoded?
    case OtherFrame(h0, h1, payload) => !(h0 == 0 && h1 == 0) && FRAME_PREFIX_LENGTH + |payload| <= MAX_LENGTH
  }

  function ItemBytes(item: WireItem): seq<Byte>
    requires ValidItem(item)
  {
    match item
    case PlainFrame(invokeId, xml) => EncodeFrame(invokeId, xml).bytes
    case OtherFrame(h0, h1, payload) => Prefix(h0, h1, FRAME_PREFIX_LENGTH + |payload|) + payload
  }

  function WireBytes(items: seq<WireItem>): seq<Byte>
    requires forall i :: 0 <= i < |items| ==> ValidItem(items[i])
  {
    if items == [] then [] else ItemBytes(items[0]) + WireBytes(items[1..])
  }

  /** The seven low bits of every code unit: what `'ascii'` encoding and decoding leaves of a text. */
  function AsciiBits(text: Text): Text {
    seq(|text|, i requires 0 <= i < |text| => text[i] % 0x80)
  }

  function FramesOf(items: seq<WireItem>): seq<Frame> {
    if items == [] then []
    else
      (if items[0].PlainFrame? then [Frame(AsciiBits(items[0].invokeId), AsciiBits(items[0].xml))] else [])
      + FramesOf(items[1..])
  }

  lemma AsciiRoundTrip(text: Text)
    ensures FromBytes(ToBytes(text)) == AsciiBits(text)
    ensures AsciiBits(text) == text <==> forall i :: 0 <= i < |text| ==> text[i] < 0x80
  {
    if AsciiBits(text) == text {
      forall i | 0 <= i < |text|
        ensures text[i] < 0x80
      {
        assert AsciiBits(text)[i] < 0x80;
      }
    }
  }

  lemma PlainItemHead(invokeId: Text, xml: Text, rest: seq<Byte>)
    requires EncodeFrame(invokeId, xml).Encoded?
    ensures var wire := EncodeFrame(invokeId, xml).bytes + rest;
            && HasFrame(wire)
            && LengthField(wire) == 8 + |xml|
            && AfterFrame(wire) == rest
            && HeadFrames(wire) == [Frame(AsciiBits(invokeId), AsciiBits(xml))]
  {
    var wire := EncodeFrame(invokeId, xml).bytes + rest;
    assert wire[..4] == Prefix(0, 0, 8 + |xml|);
    assert Subarray(wire, 4, 8) == ToBytes(invokeId);
    assert Subarray(wire, 8, 8 + |xml|) == ToBytes(xml);
    AsciiRoundTrip(invokeId);
    AsciiRoundTrip(xml);
  }

  lemma OtherItemHead(item: WireItem, rest: seq<Byte>)
    requires item.OtherFrame? && ValidItem(item)
    ensures var wire := ItemBytes(item) + rest;
            && HasFrame(wire)
            && LengthField(wire) == 4 + |item.payload|
            && AfterFrame(wire) == rest
            && !IsPlain(wire)
  {
    var wire := ItemBytes(item) + rest;
    assert wire[..4] == Prefix(item.header0, item.header1, 4 + |item.payload|);
  }

  lemma {:induction false} ReadsWire(items: seq<WireItem>)
    requires forall i :: 0 <= i < |items| ==> ValidItem(items[i])
    ensures SelfContained(WireBytes(items))
    ensures Read(WireBytes(items)) == Reading(FramesOf(items), [], false)
  {
    if items != [] {
      var rest := WireBytes(items[1..]);
      match items[0] {
        case PlainFrame(invokeId, xml) => PlainItemHead(invokeId, xml, rest);
        case OtherFrame(_, _, _) => OtherItemHead(items[0], rest);
      }
      ReadsWire(items[1..]);
      ReadStep(WireBytes(items));
    }
  }

  /**
    However TCP cuts it up, a stream of encoded frames and foreign frames is read back as
    exactly the encoded frames in order, with nothing left over: foreign frames are skipped
    without losing synchronisation.
   */
  lemma ReadsBack(items: seq<WireItem>, chunks: seq<seq<Byte>>)
    requires forall i :: 0 <= i < |items| ==> ValidItem(items[i])
    requires Concat(chunks) == WireBytes(items)
    ensures PushAll([], chunks) == Reading(FramesOf(items), [], false)
  {
    ReadsWire(items);
    assert [] + Concat(chunks) == WireBytes(items);
    PushAllReads([], chunks);
  }

  /**
    One frame survives the trip unchanged if and only if both its parts are ASCII.  The
    encoder refuses exactly the Invoke IDs that are not four code units long and the
    messages whose frame length does not fit the length field.
   */
  lemma EncodeRoundTrip(invokeId: Text, xml: Text)
    ensures EncodeFrame(invokeId, xml).Encoded? <==> |invokeId| == 4 && |xml| <= MAX_LENGTH - 8
    ensures EncodeFrame(invokeId, xml).Encoded? ==>
            (Read(EncodeFrame(invokeId, xml).bytes) == Reading([Frame(invokeId, xml)], [], false)
             <==> && (forall i :: 0 <= i < |invokeId| ==> invokeId[i] < 0x80)
                  && forall i :: 0 <= i < |xml| ==> xml[i] < 0x80)
  {
    if EncodeFrame(invokeId, xml).Encoded? {
      var items := [PlainFrame(invokeId, xml)];
      assert items[1..] == [];
      assert WireBytes(items) == EncodeFrame(invokeId, xml).bytes + [] == EncodeFrame(invokeId, xml).bytes;
      ReadsWire(items);
      assert FramesOf(items) == [Frame(AsciiBits(invokeId), AsciiBits(xml))];
      AsciiRoundTrip(invokeId);
      AsciiRoundTrip(xml);
    }
  }

  // ----- Invoke IDs -----

  const ZERO: CodeUnit := 48
  const EVENT_INVOKE_ID: Text := [57, 57, 57, 57]
  const LAST_ID := 9998

  /** `String(n)` */
  function Decimal(n: nat): Text {
    if n < 10 then [ZERO + n] else Decimal(n / 10) + [ZERO + n % 10]
  }

  /** `text.padStart(INVOKE_ID_LENGTH, '0')` */
  function Padded(text: Text): Text
    decreases INVOKE_ID_LENGTH - |text|
  {
    if |text| >= INVOKE_ID_LENGTH then text else Padded([ZERO] + text)
  }

  function NextId(next: nat): nat {
    if next >= LAST_ID then 1 else next + 1
  }

  class InvokeIdGenerator {
    var next: nat

    constructor ()
      ensures next == 1
    {
      next := 1;
    }

    method Generate() returns (id: Text)
      modifies this
      ensures id == Padded(Decimal(old(next)))
      ensures next == NextId(old(next))
    {
      id := Padded(Decimal(next));
      next := if next >= 9998 then 1 else next + 1;
    }
  }

  /** The generator's counter when `k` Invoke IDs have been handed out. */
  function CounterAfter(k: nat): nat {
    if k == 0 then 1 else NextId(CounterAfter(k - 1))
  }

  function IdNumber(k: nat): Text {
    Padded(Decimal(CounterAfter(k)))
  }

  /** The number a string of decimal digits stands for. */
  function Value(text: Text): int {
    if text == [] then 0 else 10 * Value(text[..|text| - 1]) + (text[|text| - 1] - ZERO)
  }

  lemma {:induction false} DecimalValue(n: nat)
    ensures Value(Decimal(n)) == n
    ensures n < 10 ==> |Decimal(n)| == 1
  {
    if n < 10 {
      assert Decimal(n)[..0] == [];
    } else {
      DecimalValue(n / 10);
      assert Decimal(n)[..|Decimal(n)| - 1] == Decimal(n / 10);
    }
  }

  lemma DecimalLength(n: nat)
    requires n < 10000
    ensures 1 <= |Decimal(n)| <= 4
  {
    var m := n / 10;
    var l := m / 10;
    assert l / 10 < 10;
    assert |Decimal(l)| <= 2;
    assert |Decimal(m)| <= 3;
  }

  lemma {:induction false} LeadingZero(text: Text)
    ensures Value([ZERO] + text) == Value(text)
  {
    var padded := [ZERO] + text;
    if text == [] {
      assert padded[..0] == [];
    } else {
      LeadingZero(text[..|text| - 1]);
      assert padded[..|padded| - 1] == [ZERO] + text[..|text| - 1];
    }
  }

  lemma {:induction false} PaddedValue(text: Text)
    requires |text| <= INVOKE_ID_LENGTH
    ensures |Padded(text)| == INVOKE_ID_LENGTH && Value(Padded(text)) == Value(text)
    decreases INVOKE_ID_LENGTH - |text|
  {
    if |text| < INVOKE_ID_LENGTH {
      LeadingZero(text);
      PaddedValue([ZERO] + text);
    }
  }

  lemma {:induction false} CounterCycles(k: nat)
    ensures CounterAfter(k) == 1 + k % LAST_ID
  {
    if k > 0 {
      CounterCycles(k - 1);
    }
  }

  lemma IdValue(k: nat)
    ensures |IdNumber(k)| == INVOKE_ID_LENGTH && Value(IdNumber(k)) == 1 + k % LAST_ID
  {
    CounterCycles(k);
    DecimalLength(CounterAfter(k));
    DecimalValue(CounterAfter(k));
    PaddedValue(Decimal(CounterAfter(k)));
  }

  /**
    Every Invoke ID handed out has the four code units the encoder demands, is never the
    one reserved for server events, and is not handed out again within 9998 requests;
    after exactly that many the sequence repeats.
   */
  lemma InvokeIdsAreFresh(j: nat, k: nat)
    requires j < k
    ensures |IdNumber(k)| == INVOKE_ID_LENGTH && IdNumber(k) != EVENT_INVOKE_ID
    ensures k - j < LAST_ID ==> IdNumber(j) != IdNumber(k)
    ensures k - j == LAST_ID ==> IdNumber(j) == IdNumber(k)
  {
    IdValue(k);
    EventIdValue();
    Residues(j, k);
    if k - j == LAST_ID {
      CounterCycles(j);
      CounterCycles(k);
    } else if k - j < LAST_ID {
      IdValue(j);
    }
  }

  lemma Residues(j: nat, k: nat)
    requires j < k
    ensures k - j < LAST_ID ==> j % LAST_ID != k % LAST_ID
    ensures k - j == LAST_ID ==> j % LAST_ID == k % LAST_ID
  {
  }

  lemma EventIdValue()
    ensures Value(EVENT_INVOKE_ID) == 9999
  {
    assert EVENT_INVOKE_ID[..3] == [57, 57, 57] && EVENT_INVOKE_ID[..3][..2] == [57, 57];
    assert EVENT_INVOKE_ID[..3][..2][..1] == [57] && EVENT_INVOKE_ID[..3][..2][..1][..0] == [];
    assert Value([57]) == 9;
    assert Value([57, 57]) == 99;
    assert Value([57, 57, 57]) == 999;
  }
}

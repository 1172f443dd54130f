/** The frame codec of src/websocket_server.cc against sections 5.2 and 5.3 of RFC 6455: what one
    call of ParseFrame makes of the bytes it finds, and what repeated calls make of a stream. */
module WebSocketFrames {
  import opened Prelude
  import opened Buffers
  import opened Bytes
  import opened StreamParser


  datatype Frame = Frame(fin: bool, opcode: nat, payload: seq<Byte>)

  /** Threw: the length field is so large that its sum with the header wraps around 64 bits, the size
      test passes and assigning the payload raises std::length_error. */
  datatype Result = NeedMore | Threw | Parsed(frame: Frame, consumed: nat)

  datatype Head = Short | Head(fin: bool, opcode: nat, key: Option<seq<Byte>>, length: nat, pos: nat)

  /** The width of the extended length that a 7-bit length announces. */
  function ExtraWidth(len7: nat): nat {
    if len7 == 126 then 2 else if len7 == 127 then 8 else 0
  }

  function ParseHead(s: seq<Byte>): Head {
    if |s| < 2 then Short
    else
      var len7 := s[1] % 128;
      var masked := s[1] >= 128;
      var w := ExtraWidth(len7);
      if |s| < 2 + w then Short
      else
        var length := if w == 0 then len7 else BigEndian(s[2..2 + w]);
        if masked && |s| < 2 + w + 4 then Short
        else
          var key := if masked then Some(s[2 + w..2 + w + 4]) else None;
          Head(s[0] >= 128, s[0] % 16, key, length, 2 + w + (if masked then 4 else 0))
  }

  function Mask(data: seq<Byte>, key: seq<Byte>): (r: seq<Byte>)
    requires |key| == 4
    ensures |r| == |data|
  {
    seq(|data|, i requires 0 <= i < |data| => XorByte(data[i], key[i % 4]))
  }

  function Unmask(data: seq<Byte>, key: Option<seq<Byte>>): seq<Byte>
    requires key.Some? ==> |key.value| == 4
  {
    if key.Some? then Mask(data, key.value) else data
  }

  function ParseFrame(s: seq<Byte>): Result {
    match ParseHead(s)
    case Short => NeedMore
    case Head(fin, opcode, key, length, pos) =>
      HeadFits(s);
      if |s| < (pos + length) % U64 then NeedMore
      else if pos + length >= U64 then Threw
      else Parsed(Frame(fin, opcode, Unmask(s[pos..pos + length], key)), pos + length)
  }

  lemma HeadFits(s: seq<Byte>)
    requires ParseHead(s).Head?
    ensures var h := ParseHead(s);
      && 2 <= h.pos <= 14 && h.pos <= |s| && h.opcode < 16 && h.length < U64
      && (h.key.Some? ==> |h.key.value| == 4)
  {
    var w := ExtraWidth(s[1] % 128);
    if w > 0 {
      WriteBack(s[2..2 + w]);
      assert Pow256(2) == 65536 && Pow256(8) == U64 by { Pow256Values(); }
    }
  }

  // ---------------------------------------------------------------- the exception

  /** The extended header is complete and announces so much that header and payload together reach
      2^64 bytes. */
  predicate Oversized(s: seq<Byte>) {
    && |s| >= 10 && s[1] % 128 == 127 && (s[1] >= 128 ==> |s| >= 14)
    && BigEndian(s[2..10]) + (if s[1] >= 128 then 14 else 10) >= U64
  }

  /** ParseFrame raises the exception on exactly these bytes. */
  lemma ThrowsIff(s: seq<Byte>)
    ensures ParseFrame(s) == Threw <==> Oversized(s)
  {
    if ParseHead(s).Head? {
      HeadFits(s);
      if s[1] % 128 != 127 {
        ShortLengths(s);
      }
    }
  }

  /** The other two length forms stay far below. */
  lemma ShortLengths(s: seq<Byte>)
    requires ParseHead(s).Head? && s[1] % 128 != 127
    ensures ParseHead(s).length < 65536
  {
    if s[1] % 128 == 126 {
      WriteBack(s[2..4]);
      Pow256Values();
    }
  }

  /** Ten bytes are enough: a final binary frame, not masked, with length 2^64 - 1. */
  lemma TenBytesThrow(s: seq<Byte>)
    requires s == [0x82, 127, 255, 255, 255, 255, 255, 255, 255, 255]
    ensures BigEndian(s[2..10]) == U64 - 1 && ParseFrame(s) == Threw
  {
    AllOnes(s[2..10]);
    Pow256Values();
    ThrowsIff(s);
  }

  lemma {:induction false} AllOnes(s: seq<Byte>)
    requires forall i :: 0 <= i < |s| ==> s[i] == 255
    ensures BigEndian(s) == Pow256(|s|) - 1
  {
    if s != [] {
      AllOnes(s[..|s| - 1]);
    }
  }

  // ---------------------------------------------------------------- encoding

  function SecondByte(width: nat, masked: bool, length: nat): Byte
    requires width == 0 ==> length <= 125
  {
    (if width == 0 then length else if width == 2 then 126 else 127) + (if masked then 128 else 0)
  }

  function KeyBytes(key: Option<seq<Byte>>): seq<Byte> {
    if key.Some? then key.value else []
  }

  /** A frame as section 5.2 of RFC 6455 lays it out, with the length in 1, 3 or 9 bytes (width 0, 2
      or 8 of extension) and the payload masked when there is a key. */
  function Encode(first: Byte, width: nat, key: Option<seq<Byte>>, payload: seq<Byte>): seq<Byte>
    requires width == 0 ==> |payload| <= 125
    requires key.Some? ==> |key.value| == 4
  {
    [first, SecondByte(width, key.Some?, |payload|)]
    + ToBigEndian(|payload|, width) + KeyBytes(key) + Unmask(payload, key)
  }

  /** The length form can hold the length, and header and payload together fit 64 bits. */
  predicate WidthFits(width: nat, masked: bool, length: nat) {
    || (width == 0 && length <= 125)
    || (width == 2 && length < 65536)
    || (width == 8 && length + 10 + (if masked then 4 else 0) < U64)
  }

  /** opcode | 0x80 for a final frame. */
  function FirstByte(opcode: Byte, fin: bool): Byte {
    if fin && opcode < 128 then opcode + 128 else opcode
  }

  function BuildFrame(opcode: Byte, payload: seq<Byte>, fin: bool): seq<Byte> {
    var n := |payload|;
    if n <= 125 then [FirstByte(opcode, fin), n] + payload
    else if n <= 0xFFFF then [FirstByte(opcode, fin), 126] + ToBigEndian(n, 2) + payload
    else [FirstByte(opcode, fin), 127] + ToBigEndian(n, 8) + payload
  }

  /** BuildFrame writes the unmasked encoding with the shortest length that fits. */
  lemma BuildIsEncode(opcode: Byte, payload: seq<Byte>, fin: bool)
    ensures var n := |payload|;
      var w := if n <= 125 then 0 else if n <= 0xFFFF then 2 else 8;
      BuildFrame(opcode, payload, fin) == Encode(FirstByte(opcode, fin), w, None, payload)
  {}

  lemma MaskTwice(data: seq<Byte>, key: seq<Byte>)
    requires |key| == 4
    ensures Mask(Mask(data, key), key) == data
  {
    var m := Mask(data, key);
    forall i | 0 <= i < |data| ensures Mask(m, key)[i] == data[i] {
      XorTwice(data[i], key[i % 4]);
    }
  }

  lemma UnmaskTwice(data: seq<Byte>, key: Option<seq<Byte>>)
    requires key.Some? ==> |key.value| == 4
    ensures Unmask(Unmask(data, key), key) == data
  {
    if key.Some? {
      MaskTwice(data, key.value);
    }
  }

  /** Where the parts of a frame lie. */
  lemma Layout(two: seq<Byte>, len: seq<Byte>, key: seq<Byte>, body: seq<Byte>, tail: seq<Byte>)
    requires |two| == 2
    ensures var s := two + len + key + body + tail;
      var k, p := 2 + |len|, 2 + |len| + |key|;
      && |s| == p + |body| + |tail|
      && s[0] == two[0] && s[1] == two[1]
      && s[2..k] == len && s[k..p] == key && s[p..p + |body|] == body
  {}

  lemma SecondByteFacts(width: nat, masked: bool, length: nat)
    requires WidthFits(width, masked, length)
    ensures var b := SecondByte(width, masked, length);
      && (b >= 128 <==> masked) && ExtraWidth(b % 128) == width && (width == 0 ==> b % 128 == length)
  {}

  lemma EncodedHead(first: Byte, width: nat, key: Option<seq<Byte>>, payload: seq<Byte>, tail: seq<Byte>)
    requires WidthFits(width, key.Some?, |payload|) && (key.Some? ==> |key.value| == 4)
    ensures var s := Encode(first, width, key, payload) + tail;
      var pos := 2 + width + |KeyBytes(key)|;
      && ParseHead(s) == Head(first >= 128, first % 16, key, |payload|, pos)
      && |Encode(first, width, key, payload)| == pos + |payload|
      && |s| >= pos + |payload|
      && s[pos..pos + |payload|] == Unmask(payload, key)
  {
    var two := [first, SecondByte(width, key.Some?, |payload|)];
    var len := ToBigEndian(|payload|, width);
    SecondByteFacts(width, key.Some?, |payload|);
    if width > 0 {
      LengthIsReadBack(|payload|, width, key.Some?);
    }
    LaidOutHead(two, len, KeyBytes(key), Unmask(payload, key), tail, Encode(first, width, key, payload) + tail);
  }

  lemma LengthIsReadBack(n: nat, width: nat, masked: bool)
    requires WidthFits(width, masked, n) && width > 0
    ensures BigEndian(ToBigEndian(n, width)) == n
  {
    ReadBack(n, width);
    Pow256Values();
  }

  /** What ParseHead makes of the parts of a frame. */
  lemma LaidOutHead(two: seq<Byte>, len: seq<Byte>, key: seq<Byte>, body: seq<Byte>, tail: seq<Byte>, s: seq<Byte>)
    requires s == two + len + key + body + tail
    requires |two| == 2 && |len| == ExtraWidth(two[1] % 128) && |key| == (if two[1] >= 128 then 4 else 0)
    ensures var pos := 2 + |len| + |key|;
      && ParseHead(s) == Head(two[0] >= 128, two[0] % 16, if two[1] >= 128 then Some(key) else None,
                              if |len| == 0 then two[1] % 128 else BigEndian(len), pos)
      && |s| == pos + |body| + |tail| && s[pos..pos + |body|] == body
  {
    Layout(two, len, key, body, tail);
  }

  /** Parsing inverts encoding: for every length form, masked or not, whatever follows in the buffer,
      the frame comes back and exactly its own bytes are consumed. */
  lemma ParseInvertsEncode(first: Byte, width: nat, key: Option<seq<Byte>>, payload: seq<Byte>, tail: seq<Byte>)
    requires WidthFits(width, key.Some?, |payload|) && (key.Some? ==> |key.value| == 4)
    ensures ParseFrame(Encode(first, width, key, payload) + tail)
         == Parsed(Frame(first >= 128, first % 16, payload), |Encode(first, width, key, payload)|)
  {
    EncodedHead(first, width, key, payload, tail);
    UnmaskTwice(payload, key);
    var s := Encode(first, width, key, payload) + tail;
    assert ParseHead(s).pos + |payload| < U64;
  }

  /** What the server builds, a parser of the same code reads back; opcode and final flag survive
      exactly when the opcode has four bits. */
  lemma ParseInvertsBuild(opcode: Byte, payload: seq<Byte>, fin: bool, tail: seq<Byte>)
    requires |payload| + 10 < U64
    ensures var s := BuildFrame(opcode, payload, fin);
      && ParseFrame(s + tail).Parsed?
      && ParseFrame(s + tail).consumed == |s| && ParseFrame(s + tail).frame.payload == payload
      && (opcode < 16 ==> ParseFrame(s + tail).frame == Frame(fin, opcode, payload))
      && (ParseFrame(s + tail).frame == Frame(fin, opcode, payload) ==> opcode < 16)
  {
    var w := if |payload| <= 125 then 0 else if |payload| <= 0xFFFF then 2 else 8;
    BuildIsEncode(opcode, payload, fin);
    ParseInvertsEncode(FirstByte(opcode, fin), w, None, payload, tail);
  }

  // ---------------------------------------------------------------- streams

  lemma HeadOfLonger(s: seq<Byte>, t: seq<Byte>)
    requires ParseHead(s).Head?
    ensures ParseHead(s + t) == ParseHead(s)
  {
    var w := ExtraWidth(s[1] % 128);
    SliceOfLonger(s, t, 2, 2 + w);
    if s[1] >= 128 {
      SliceOfLonger(s, t, 2 + w, 2 + w + 4);
    }
  }

  lemma SliceOfLonger(s: seq<Byte>, t: seq<Byte>, i: nat, j: nat)
    requires i <= j <= |s|
    ensures (s + t)[i..j] == s[i..j]
  {}

  /** More bytes never change a frame that was complete. */
  lemma ParseOfLonger(s: seq<Byte>, t: seq<Byte>)
    requires ParseFrame(s).Parsed?
    ensures ParseFrame(s + t) == ParseFrame(s)
    ensures 2 <= ParseFrame(s).consumed <= |s|
  {
    HeadOfLonger(s, t);
    HeadFits(s);
    var h := ParseHead(s);
    SliceOfLonger(s, t, h.pos, h.pos + h.length);
  }

  /** A strict prefix of a frame is never taken for one: ParseFrame consumes nothing. */
  lemma StrictPrefixNeedsMore(s: seq<Byte>, k: nat)
    requires ParseFrame(s).Parsed? && k < ParseFrame(s).consumed && k <= |s|
    ensures ParseFrame(s[..k]) == NeedMore
  {
    assert s == s[..k] + s[k..];
    if ParseHead(s[..k]).Head? {
      HeadOfLonger(s[..k], s[k..]);
      HeadFits(s);
    }
  }

  /** One call of ParseFrame, as a step along a stream. */
  function FrameStep(s: seq<Byte>): Step<Frame> {
    match ParseFrame(s)
    case Parsed(f, n) => Item(f, n)
    case _ => Stop
  }

  lemma FrameStepIsStable()
    ensures Stable(FrameStep)
  {
    forall s, t | FrameStep(s).Item?
      ensures FrameStep(s + t) == FrameStep(s) && 0 < FrameStep(s).consumed <= |s|
    {
      ParseOfLonger(s, t);
    }
    forall s | FrameStep(s).Item? ensures 0 < FrameStep(s).consumed <= |s| {
      ParseOfLonger(s, []);
    }
  }

  /** The frames of a stream do not depend on how it is cut into reads. */
  lemma FramesIgnoreChunking(rest: seq<Byte>, chunks: seq<seq<Byte>>)
    requires !ParseFrame(rest).Parsed?
    ensures Stable(FrameStep)
    ensures Feed(FrameStep, rest, chunks) == ParseAll(FrameStep, rest + Concat(chunks))
  {
    FrameStepIsStable();
    ChunkingIsInvisible(FrameStep, rest, chunks);
  }

  /** Once such a header is in front, no frame is ever taken again, however many bytes still arrive and
      however they are cut. */
  lemma ThrownForGood(rest: seq<Byte>, chunks: seq<seq<Byte>>)
    requires Oversized(rest)
    ensures Stable(FrameStep) && Feed(FrameStep, rest, chunks) == ([], rest + Concat(chunks))
    ensures ParseFrame(rest + Concat(chunks)) == Threw
  {
    var more := rest + Concat(chunks);
    ThrowsIff(rest);
    SliceOfLonger(rest, Concat(chunks), 2, 10);
    ThrowsIff(more);
    FramesIgnoreChunking(rest, chunks);
  }

  /** part is frame written with that length form and that masking key. */
  ghost predicate EncodedAs(frame: Frame, width: nat, key: Option<seq<Byte>>, part: seq<Byte>) {
    && WidthFits(width, key.Some?, |frame.payload|) && (key.Some? ==> |key.value| == 4) && frame.opcode < 16
    && part == Encode(FirstByte(frame.opcode, frame.fin), width, key, frame.payload)
  }

  lemma PartIsReadBack(frame: Frame, width: nat, key: Option<seq<Byte>>, part: seq<Byte>, tail: seq<Byte>)
    requires EncodedAs(frame, width, key, part)
    ensures FrameStep(part + tail) == Item(frame, |part|)
  {
    FlagAndOpcode(frame.opcode, frame.fin);
    ParseInvertsEncode(FirstByte(frame.opcode, frame.fin), width, key, frame.payload, tail);
    assert ParseFrame(part + tail) == Parsed(frame, |part|);
  }

  lemma FlagAndOpcode(opcode: nat, fin: bool)
    requires opcode < 16
    ensures var b := FirstByte(opcode, fin); (b >= 128 <==> fin) && b % 16 == opcode
  {}

  /** Frames encoded one after another, in any length form and with any keys, cut anywhere, are read
      back as exactly those frames with nothing left over. */
  lemma FrameStreamIsReadBack(frames: seq<Frame>, widths: seq<nat>, keys: seq<Option<seq<Byte>>>,
                              parts: seq<seq<Byte>>, chunks: seq<seq<Byte>>)
    requires |frames| == |widths| == |keys| == |parts|
    requires forall i :: 0 <= i < |frames| ==> EncodedAs(frames[i], widths[i], keys[i], parts[i])
    requires Concat(chunks) == Concat(parts)
    ensures Stable(FrameStep) && Feed(FrameStep, [], chunks) == (frames, [])
  {
    FrameStepIsStable();
    forall i, tail | 0 <= i < |frames| ensures FrameStep(parts[i] + tail) == Item(frames[i], |parts[i]|) {
      PartIsReadBack(frames[i], widths[i], keys[i], parts[i], tail);
    }
    assert ParseHead([]).Short?;
    EncodedStreamIsReadBack(FrameStep, frames, parts, chunks);
  }
}

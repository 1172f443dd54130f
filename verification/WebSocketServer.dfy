/** ParseFrame and BuildFrame of src/websocket_server.cc as code over a Buffer. */
module WebSocketServerCode {
  import opened Prelude
  import opened Buffers
  import opened Bytes
  import F = WebSocketFrames
  import W = WebSocketWire

  /** The frame at the front of the buffer, if it is complete; then it is consumed. threw stands for
      the exception an impossible length raises. */
  method ParseFrame(buf: Buffer) returns (ok: bool, threw: bool, frame: F.Frame)
    requires buf.Valid()
    modifies buf
    ensures buf.Valid() && buf.Storage() == old(buf.Storage())
    ensures match F.ParseFrame(old(buf.Contents()))
            case NeedMore => !ok && !threw && buf.Contents() == old(buf.Contents())
            case Threw => !ok && threw && buf.Contents() == old(buf.Contents())
            case Parsed(f, n) => ok && !threw && frame == f && n <= |old(buf.Contents())|
                                 && buf.Contents() == old(buf.Contents())[n..]
  {
    frame := F.Frame(false, 0, []);
    var data := buf.Peek();
    var head := ReadHead(data);
    if head.Short? {
      return false, false, frame;
    }
    F.HeadFits(data);
    if |data| < (head.pos + head.length) % U64 {
      return false, false, frame;
    }
    if head.pos + head.length >= U64 {
      return false, true, frame;
    }
    frame := TakeFrame(buf, head);
    ok, threw := true, false;
  }

  /** The payload is copied out and unmasked, and the frame leaves the buffer. */
  method TakeFrame(buf: Buffer, head: F.Head) returns (frame: F.Frame)
    requires buf.Valid() && head.Head? && head.pos + head.length <= |buf.Contents()|
    requires head.key.Some? ==> |head.key.value| == 4
    modifies buf
    ensures buf.Valid() && buf.Storage() == old(buf.Storage())
    ensures var n := head.pos + head.length;
      && buf.Contents() == old(buf.Contents())[n..]
      && frame == F.Frame(head.fin, head.opcode, F.Unmask(old(buf.Contents())[head.pos..n], head.key))
  {
    var data := buf.Peek();
    var payload := data[head.pos..head.pos + head.length];
    if head.key.Some? {
      payload := UnmaskInPlace(payload, head.key.value);
    }
    buf.Retrieve(head.pos + head.length);
    frame := F.Frame(head.fin, head.opcode, payload);
  }

  /** The first part of ParseFrame: the two fixed bytes, the extended length and the mask key. */
  method ReadHead(data: seq<Byte>) returns (head: F.Head)
    ensures head == F.ParseHead(data)
  {
    if |data| < 2 {
      return F.Short;
    }
    var len := |data|;
    var b1, b2 := data[0], data[1];
    var pos := 2;
    var masked := b2 >= 128;
    var payloadLen: nat := b2 % 128;
    if payloadLen == 126 {
      if len < pos + 2 {
        return F.Short;
      }
      payloadLen := data[pos] as int * 256 + data[pos + 1];
      BigEndianTwo(data, pos);
      pos := pos + 2;
    } else if payloadLen == 127 {
      if len < pos + 8 {
        return F.Short;
      }
      payloadLen := ReadLength8(data, pos);
      pos := pos + 8;
    }
    var key: Option<seq<Byte>> := None;
    if masked {
      if len < pos + 4 {
        return F.Short;
      }
      key := Some(data[pos..pos + 4]);
      pos := pos + 4;
    }
    head := F.Head(b1 >= 128, b1 % 16, key, payloadLen, pos);
  }

  lemma BigEndianTwo(data: seq<Byte>, pos: nat)
    requires pos + 2 <= |data|
    ensures BigEndian(data[pos..pos + 2]) == data[pos] as int * 256 + data[pos + 1]
  {
    assert data[pos..pos + 2] == [data[pos], data[pos + 1]];
    BigEndianOfTwo(data[pos], data[pos + 1]);
  }

  /** Eight length bytes, shifted in one by one. */
  method ReadLength8(data: seq<Byte>, pos: nat) returns (n: nat)
    requires pos + 8 <= |data|
    ensures n == BigEndian(data[pos..pos + 8])
  {
    n := 0;
    for i := 0 to 8
      invariant n == BigEndian(data[pos..pos + i])
    {
      assert data[pos..pos + i + 1][..i] == data[pos..pos + i];
      n := n * 256 + data[pos + i];
    }
  }

  method UnmaskInPlace(payload: seq<Byte>, maskKey: seq<Byte>) returns (p: seq<Byte>)
    requires |maskKey| == 4
    ensures p == F.Mask(payload, maskKey)
    ensures forall i, j :: 0 <= i < |p| && 0 <= j < 8 ==>
      (W.BitSet(p[i], j) != W.BitSet(payload[i], j) <==> W.BitSet(maskKey[i % 4], j))
  {
    p := payload;
    for i := 0 to |p|
      invariant |p| == |payload|
      invariant forall j :: 0 <= j < i ==> p[j] == XorByte(payload[j], maskKey[j % 4])
      invariant forall j :: i <= j < |p| ==> p[j] == payload[j]
    {
      p := p[i := XorByte(p[i], maskKey[i % 4])];
    }
    forall i, j | 0 <= i < |p| && 0 <= j < 8
      ensures W.BitSet(p[i], j) != W.BitSet(payload[i], j) <==> W.BitSet(maskKey[i % 4], j)
    {
      W.XorBits(payload[i], maskKey[i % 4], j);
    }
  }

  method BuildFrame(opcode: Byte, payload: seq<Byte>, fin: bool) returns (frame: seq<Byte>)
    ensures frame == F.BuildFrame(opcode, payload, fin)
  {
    var payloadLen := |payload|;
    frame := [F.FirstByte(opcode, fin)];
    if payloadLen <= 125 {
      frame := frame + [payloadLen];
    } else if payloadLen <= 0xFFFF {
      frame := frame + [126];
      frame := frame + [(payloadLen / 256) % 256];
      frame := frame + [payloadLen % 256];
      assert ToBigEndian(payloadLen, 2) == [(payloadLen / 256) % 256, payloadLen % 256] by {
        assert ToBigEndian(payloadLen / 256, 1) == [(payloadLen / 256) % 256];
      }
    } else {
      frame := frame + [127];
      var lenBytes := LengthBytes(payloadLen);
      frame := frame + lenBytes;
    }
    frame := frame + payload;
  }

  /** The eight length bytes, most significant first. */
  method LengthBytes(n: nat) returns (out: seq<Byte>)
    ensures out == ToBigEndian(n, 8)
  {
    out := [];
    for i := 8 downto 0
      invariant |out| == 8 - i && out == ToBigEndian(n, 8)[..8 - i]
    {
      DigitAt(n, 8, 7 - i);
      out := out + [(n / Pow256(i)) % 256];
    }
  }
}

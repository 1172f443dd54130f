/** The frames of src/websocket_server.cc as bits and bytes on the wire: what ParseFrame and BuildFrame
    do, said in the terms of sections 5.2 and 5.3 of RFC 6455, and the examples of its section 5.7. */
module WebSocketWire {
  import opened Prelude
  import opened Buffers
  import opened Bytes
  import opened WebSocketFrames

  /** Bit j of a byte, the least significant being bit 0. */
  predicate BitSet(b: Byte, j: nat)
    requires j < 8
  {
    b / [1, 2, 4, 8, 16, 32, 64, 128][j] % 2 == 1
  }

  lemma HalfThen(n: nat, p: nat)
    requires p >= 1
    ensures n / 2 / p == n / (2 * p)
  {
    var m, r := n / 2, n % 2;
    var q, t := m / p, m % p;
    assert m == q * p + t;
    assert n == q * (2 * p) + (2 * t + r) by { assert 2 * (q * p) == q * (2 * p); }
    DivModUnique(n, 2 * p, q, 2 * t + r);
  }

  /** Binary digit j of a number. */
  function Digit(n: nat, j: nat): nat {
    if j == 0 then n % 2 else Digit(n / 2, j - 1)
  }

  lemma {:induction false} DigitIsQuotient(n: nat, j: nat)
    ensures Pow2(j) >= 1 && Digit(n, j) == n / Pow2(j) % 2
    decreases j
  {
    Pow2Monotone(0, j);
    if j > 0 {
      DigitIsQuotient(n / 2, j - 1);
      HalfThen(n, Pow2(j - 1));
    }
  }

  lemma {:induction false} XorDigit(a: nat, b: nat, j: nat)
    ensures Digit(Xor(a, b), j) == (Digit(a, j) + Digit(b, j)) % 2
    decreases j
  {
    XorHalves(a, b);
    if j > 0 {
      XorDigit(a / 2, b / 2, j - 1);
    }
  }

  lemma BitIsDigit(b: Byte, j: nat)
    requires j < 8
    ensures Digit(b, j) == b / [1, 2, 4, 8, 16, 32, 64, 128][j] % 2
  {
    DigitIsQuotient(b, j);
    assert Pow2(0) == 1 && Pow2(1) == 2 && Pow2(2) == 4 && Pow2(3) == 8;
    assert Pow2(4) == 16 && Pow2(5) == 32 && Pow2(6) == 64 && Pow2(7) == 128;
  }

  lemma XorBits(a: Byte, b: Byte, j: nat)
    requires j < 8
    ensures BitSet(XorByte(a, b), j) != BitSet(a, j) <==> BitSet(b, j)
  {
    XorDigit(a, b, j);
    BitIsDigit(a, j);
    BitIsDigit(b, j);
    BitIsDigit(XorByte(a, b), j);
  }

  // ---------------------------------------------------------------- reading

  /** The length of a frame's header, from its second byte. */
  function HeaderLength(s: seq<Byte>): nat
    requires |s| >= 2
  {
    (match s[1] % 128 case 126 => 4 case 127 => 10 case _ => 2) + (if s[1] >= 128 then 4 else 0)
  }

  /** The payload length a complete header announces. */
  function PayloadLength(s: seq<Byte>): nat
    requires |s| >= 2 && |s| >= HeaderLength(s)
  {
    match s[1] % 128
    case 126 => s[2] as int * 0x100 + s[3]
    case 127 =>
      s[2] as int * 0x100_0000_0000_0000 + s[3] as int * 0x1_0000_0000_0000 + s[4] as int * 0x100_0000_0000
      + s[5] as int * 0x1_0000_0000 + s[6] as int * 0x100_0000 + s[7] as int * 0x1_0000 + s[8] as int * 0x100 + s[9]
    case n => n
  }

  lemma HeadIsRead(s: seq<Byte>)
    requires |s| >= 2
    ensures ParseHead(s).Head? <==> |s| >= HeaderLength(s)
    ensures |s| >= HeaderLength(s) ==>
      && ParseHead(s).pos == HeaderLength(s) && ParseHead(s).length == PayloadLength(s)
      && ParseHead(s).fin == (s[0] >= 128) && ParseHead(s).opcode == s[0] % 16
      && ParseHead(s).key == if s[1] >= 128 then Some(s[HeaderLength(s) - 4..HeaderLength(s)]) else None
  {
    if |s| >= HeaderLength(s) {
      if s[1] % 128 == 126 {
        assert s[2..4] == [s[2], s[3]];
        BigEndianOfTwo(s[2], s[3]);
      } else if s[1] % 128 == 127 {
        LongLength(s);
      }
    }
  }

  lemma LongLength(s: seq<Byte>)
    requires |s| >= 10 && s[1] % 128 == 127 && |s| >= HeaderLength(s)
    ensures BigEndian(s[2..10]) == PayloadLength(s)
  {
    BigEndianOfEight(s[2..10]);
  }

  /** A frame is taken exactly when its header and the payload that header announces are there, and
      together they stay below 2^64 bytes. */
  lemma ParsesIff(s: seq<Byte>)
    ensures ParseFrame(s).Parsed? <==>
      && |s| >= 2 && |s| >= HeaderLength(s)
      && HeaderLength(s) + PayloadLength(s) <= |s|
      && HeaderLength(s) + PayloadLength(s) < 0x1_0000_0000_0000_0000
  {
    if |s| >= 2 {
      HeadIsRead(s);
      if ParseHead(s).Head? {
        HeadFits(s);
      }
    }
  }

  /** What is taken, byte by byte. */
  lemma TakenFrame(s: seq<Byte>)
    requires ParseFrame(s).Parsed?
    ensures 2 <= |s| && HeaderLength(s) <= ParseFrame(s).consumed <= |s|
    ensures var p, n, f := HeaderLength(s), ParseFrame(s).consumed, ParseFrame(s).frame;
      && n == p + PayloadLength(s) && |f.payload| == PayloadLength(s)
      && (f.fin <==> s[0] >= 128) && f.opcode == s[0] % 16
      && (s[1] < 128 ==> f.payload == s[p..n])
  {
    ParsesIff(s);
    HeadIsRead(s);
    HeadFits(s);
  }

  /** Masking flips, in byte i, exactly the bits set in byte i modulo 4 of the key. */
  lemma MaskFlips(data: seq<Byte>, key: seq<Byte>, i: nat, j: nat)
    requires |key| == 4 && i < |data| && j < 8
    ensures BitSet(Mask(data, key)[i], j) != BitSet(data[i], j) <==> BitSet(key[i % 4], j)
  {
    XorBits(data[i], key[i % 4], j);
  }

  /** The unmasking of section 5.3 of RFC 6455, bit by bit: byte i of the payload differs from the byte
      received in exactly the bits set in byte i modulo 4 of the key, which precedes the payload. */
  lemma UnmaskedBits(s: seq<Byte>, i: nat, j: nat)
    requires ParseFrame(s).Parsed? && i < |ParseFrame(s).frame.payload| && j < 8
    ensures |s| >= 2 && ParseFrame(s).consumed <= |s|
    ensures var f, n := ParseFrame(s).frame, ParseFrame(s).consumed;
      var p := n - |f.payload|;
      s[1] >= 128 ==>
        4 <= p && (BitSet(f.payload[i], j) != BitSet(s[p + i], j) <==> BitSet(s[p - 4 + i % 4], j))
  {
    TakenFrame(s);
    HeadIsRead(s);
    HeadFits(s);
    if s[1] >= 128 {
      var p := HeaderLength(s);
      MaskFlips(s[p..p + PayloadLength(s)], s[p - 4..p], i, j);
    }
  }

  // ---------------------------------------------------------------- writing

  /** No other encoding of the same payload without a key is shorter than what BuildFrame writes. */
  lemma BuildIsShortest(opcode: Byte, payload: seq<Byte>, fin: bool, first: Byte, width: nat)
    requires WidthFits(width, false, |payload|)
    ensures |BuildFrame(opcode, payload, fin)| <= |Encode(first, width, None, payload)|
  {
    BuildIsEncode(opcode, payload, fin);
  }

  // ---------------------------------------------------------------- section 5.7 of RFC 6455

  const HELLO: seq<Byte> := [0x48, 0x65, 0x6c, 0x6c, 0x6f]

  lemma HelloUnmasked()
    ensures BuildFrame(1, HELLO, true) == [0x81, 0x05, 0x48, 0x65, 0x6c, 0x6c, 0x6f]
    ensures ParseFrame([0x81, 0x05, 0x48, 0x65, 0x6c, 0x6c, 0x6f]) == Parsed(Frame(true, 1, HELLO), 7)
  {
    ParseInvertsBuild(1, HELLO, true, []);
    assert BuildFrame(1, HELLO, true) + [] == BuildFrame(1, HELLO, true);
  }

  lemma HelloFragmented()
    ensures BuildFrame(1, HELLO[..3], false) == [0x01, 0x03, 0x48, 0x65, 0x6c]
    ensures BuildFrame(0, HELLO[3..], true) == [0x80, 0x02, 0x6c, 0x6f]
  {}

  /** The digit of weight p of x is that of the exclusive or of a and b. */
  predicate Differ(a: Byte, b: Byte, x: Byte, p: nat)
    requires p > 0
  {
    x / p % 2 == (a / p % 2 + b / p % 2) % 2
  }

  predicate AllDiffer(a: Byte, b: Byte, x: Byte) {
    && Differ(a, b, x, 1) && Differ(a, b, x, 2) && Differ(a, b, x, 4) && Differ(a, b, x, 8)
    && Differ(a, b, x, 16) && Differ(a, b, x, 32) && Differ(a, b, x, 64) && Differ(a, b, x, 128)
  }

  lemma {:induction false} SameDigits(x: nat, y: nat, k: nat)
    requires x < Pow2(k) && y < Pow2(k)
    requires forall j: nat :: j < k ==> Digit(x, j) == Digit(y, j)
    ensures x == y
    decreases k
  {
    if k > 0 {
      assert Digit(x, 0) == Digit(y, 0);
      forall j: nat | j < k - 1 ensures Digit(x / 2, j) == Digit(y / 2, j) {
        assert Digit(x, j + 1) == Digit(y, j + 1);
      }
      SameDigits(x / 2, y / 2, k - 1);
    }
  }

  lemma XorIs(a: Byte, b: Byte, x: Byte)
    requires AllDiffer(a, b, x)
    ensures XorByte(a, b) == x
  {
    forall j: nat | j < 8 ensures Digit(XorByte(a, b), j) == Digit(x, j) {
      DigitsDiffer(a, b, x, j);
      XorDigit(a, b, j);
    }
    assert Pow2(8) == 256;
    SameDigits(XorByte(a, b), x, 8);
  }

  lemma DigitsDiffer(a: Byte, b: Byte, x: Byte, j: nat)
    requires AllDiffer(a, b, x) && j < 8
    ensures Digit(x, j) == (Digit(a, j) + Digit(b, j)) % 2
  {
    BitIsDigit(a, j);
    BitIsDigit(b, j);
    BitIsDigit(x, j);
    assert Differ(a, b, x, [1, 2, 4, 8, 16, 32, 64, 128][j]);
  }

  lemma FirstLetter(a: Byte, b: Byte)
    requires a == 0x7f && b == 0x37
    ensures XorByte(a, b) == 0x48
  {
    XorIs(a, b, 0x48);
  }

  lemma SecondLetter(a: Byte, b: Byte)
    requires a == 0x9f && b == 0xfa
    ensures XorByte(a, b) == 0x65
  {
    XorIs(a, b, 0x65);
  }

  lemma ThirdLetter(a: Byte, b: Byte)
    requires a == 0x4d && b == 0x21
    ensures XorByte(a, b) == 0x6c
  {
    XorIs(a, b, 0x6c);
  }

  lemma FourthLetter(a: Byte, b: Byte)
    requires a == 0x51 && b == 0x3d
    ensures XorByte(a, b) == 0x6c
  {
    XorIs(a, b, 0x6c);
  }

  lemma FifthLetter(a: Byte, b: Byte)
    requires a == 0x58 && b == 0x37
    ensures XorByte(a, b) == 0x6f
  {
    XorIs(a, b, 0x6f);
  }

  lemma HelloLetter(a: Byte, b: Byte, i: nat)
    requires i < 5 && a == [0x7f, 0x9f, 0x4d, 0x51, 0x58][i] && b == [0x37, 0xfa, 0x21, 0x3d][i % 4]
    ensures XorByte(a, b) == HELLO[i]
  {
    match i
    case 0 => FirstLetter(a, b);
    case 1 => SecondLetter(a, b);
    case 2 => ThirdLetter(a, b);
    case 3 => FourthLetter(a, b);
    case _ => FifthLetter(a, b);
  }

  lemma HelloBody(body: seq<Byte>, key: seq<Byte>)
    requires body == [0x7f, 0x9f, 0x4d, 0x51, 0x58] && key == [0x37, 0xfa, 0x21, 0x3d]
    ensures Mask(body, key) == HELLO
  {
    forall i | 0 <= i < 5 ensures XorByte(body[i], key[i % 4]) == HELLO[i] {
      HelloLetter(body[i], key[i % 4], i);
    }
  }

  lemma HelloMasked(s: seq<Byte>)
    requires s == [0x81, 0x85, 0x37, 0xfa, 0x21, 0x3d, 0x7f, 0x9f, 0x4d, 0x51, 0x58]
    ensures ParseFrame(s) == Parsed(Frame(true, 1, HELLO), 11)
  {
    HeadIsRead(s);
    HelloBody(s[6..11], s[2..6]);
  }

  lemma Header256(payload: seq<Byte>)
    requires |payload| == 256
    ensures BuildFrame(2, payload, true) == [0x82, 0x7E, 0x01, 0x00] + payload
  {
    assert ToBigEndian(256, 2) == [1, 0];
  }

  lemma Bytes64K(len: seq<Byte>)
    requires len == ToBigEndian(65536, 8)
    ensures len == [0x00, 0x00, 0x00, 0x00, 0x00, 0x01, 0x00, 0x00]
  {}

  lemma Header64K(payload: seq<Byte>, len: seq<Byte>)
    requires |payload| == 65536 && len == [0x00, 0x00, 0x00, 0x00, 0x00, 0x01, 0x00, 0x00]
    ensures BuildFrame(2, payload, true) == [0x82, 0x7F] + len + payload
  {
    var n := |payload|;
    assert ToBigEndian(n, 8) == len by { Bytes64K(ToBigEndian(n, 8)); }
  }
}

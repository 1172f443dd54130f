/** Big-endian numbers and exclusive or, shared by the codecs. */
module Bytes {
  import opened Prelude
  import opened Buffers

  /** The number a big-endian byte string denotes. */
  function BigEndian(s: seq<Byte>): nat {
    if s == [] then 0 else BigEndian(s[..|s| - 1]) * 256 + s[|s| - 1]
  }

  /** The last k base-256 digits of n, most significant first. */
  function ToBigEndian(n: nat, k: nat): (s: seq<Byte>)
    ensures |s| == k
  {
    if k == 0 then [] else ToBigEndian(n / 256, k - 1) + [n % 256]
  }

  function Pow256(k: nat): nat {
    if k == 0 then 1 else 256 * Pow256(k - 1)
  }

  lemma Pow256Values()
    ensures Pow256(2) == 65536 && Pow256(8) == U64
  {
    assert Pow256(1) == 256 && Pow256(2) == 65536 && Pow256(3) == 0x100_0000 && Pow256(4) == 0x1_0000_0000;
    assert Pow256(5) == 0x100_0000_0000 && Pow256(6) == 0x1_0000_0000_0000;
    assert Pow256(7) == 0x100_0000_0000_0000;
  }

  /** Writing a number and reading it back loses exactly what does not fit the width. */
  lemma {:induction false} ReadBack(n: nat, k: nat)
    ensures n < Pow256(k) ==> BigEndian(ToBigEndian(n, k)) == n
    ensures BigEndian(ToBigEndian(n, k)) < Pow256(k)
  {
    if k > 0 {
      ReadBack(n / 256, k - 1);
      var s := ToBigEndian(n, k);
      assert s[..|s| - 1] == ToBigEndian(n / 256, k - 1);
    }
  }

  /** Reading a byte string and writing the number in as many bytes gives the string back. */
  lemma {:induction false} WriteBack(s: seq<Byte>)
    ensures ToBigEndian(BigEndian(s), |s|) == s && BigEndian(s) < Pow256(|s|)
    decreases |s|
  {
    if s != [] {
      var init, last := s[..|s| - 1], s[|s| - 1];
      WriteBack(init);
      LastDigit(BigEndian(init), last, Pow256(|init|));
      WriteLast(BigEndian(init), |init|, last);
      assert s == init + [last];
    }
  }

  /** One more byte at the back. */
  lemma WriteLast(n: nat, k: nat, last: Byte)
    ensures ToBigEndian(n * 256 + last, k + 1) == ToBigEndian(n, k) + [last]
  {
    var m := n * 256 + last;
    LastDigit(n, last, n + 1);
    assert m / 256 == n && m % 256 == last;
  }

  lemma LastDigit(p: nat, b: Byte, bound: nat)
    requires p < bound
    ensures (p * 256 + b) / 256 == p && (p * 256 + b) % 256 == b && p * 256 + b < 256 * bound
  {
    assert (p + 1) * 256 <= 256 * bound;
  }

  // ---------------------------------------------------------------- the number of a few bytes

  lemma BigEndianNext(s: seq<Byte>, b: Byte)
    ensures BigEndian(s + [b]) == BigEndian(s) * 256 + b
  {
    assert (s + [b])[..|s|] == s;
  }

  lemma BigEndianOfTwo(a: Byte, b: Byte)
    ensures BigEndian([a, b]) == a as int * 0x100 + b
  {
    BigEndianNext([], a);
    BigEndianNext([a], b);
    assert [] + [a] == [a] && [a] + [b] == [a, b];
  }

  lemma BigEndianOfFour(s: seq<Byte>, a: Byte, b: Byte, c: Byte, d: Byte)
    ensures BigEndian(s + [a, b, c, d])
      == BigEndian(s) * 0x1_0000_0000 + a as int * 0x100_0000 + b as int * 0x1_0000 + c as int * 0x100 + d
  {
    BigEndianNext(s, a);
    BigEndianNext(s + [a], b);
    BigEndianNext(s + [a] + [b], c);
    BigEndianNext(s + [a] + [b] + [c], d);
    assert s + [a] + [b] + [c] + [d] == s + [a, b, c, d];
  }

  lemma BigEndianOfEight(s: seq<Byte>)
    requires |s| == 8
    ensures BigEndian(s) ==
      s[0] as int * 0x100_0000_0000_0000 + s[1] as int * 0x1_0000_0000_0000 + s[2] as int * 0x100_0000_0000
      + s[3] as int * 0x1_0000_0000 + s[4] as int * 0x100_0000 + s[5] as int * 0x1_0000 + s[6] as int * 0x100 + s[7]
  {
    var front := [s[0], s[1], s[2], s[3]];
    assert s == front + [s[4], s[5], s[6], s[7]];
    BigEndianOfFour(front, s[4], s[5], s[6], s[7]);
    BigEndianOfFour([], s[0], s[1], s[2], s[3]);
    assert [] + front == front;
  }

  /** The number read back is never more than the one written. */
  lemma {:induction false} ReadLow(n: nat, k: nat)
    ensures BigEndian(ToBigEndian(n, k)) <= n
  {
    if k > 0 {
      ReadLow(n / 256, k - 1);
      var s := ToBigEndian(n, k);
      assert s[..|s| - 1] == ToBigEndian(n / 256, k - 1);
    }
  }

  lemma Pow256Positive(k: nat)
    ensures Pow256(k) >= 1
  {}

  /** Digit j of a big-endian number, found by shifting right and masking. */
  lemma {:induction false} DigitAt(n: nat, k: nat, j: nat)
    requires j < k
    ensures Pow256(k - 1 - j) >= 1 && ToBigEndian(n, k)[j] == (n / Pow256(k - 1 - j)) % 256
    decreases k
  {
    Pow256Positive(k - 1 - j);
    if j < k - 1 {
      DigitAt(n / 256, k - 1, j);
      var p := Pow256(k - 2 - j);
      assert Pow256(k - 1 - j) == 256 * p;
      DivTwice(n, p);
    }
  }

  lemma DivTwice(n: nat, p: nat)
    requires p >= 1
    ensures n / 256 / p == n / (256 * p)
  {
    var m, r := n / 256, n % 256;
    var q, t := m / p, m % p;
    assert m == q * p + t;
    assert n == q * (256 * p) + (256 * t + r) by { assert 256 * (q * p) == q * (256 * p); }
    DivModUnique(n, 256 * p, q, 256 * t + r);
  }

  /** Byte strings one after another. */
  function Concat(chunks: seq<seq<Byte>>): seq<Byte>
    decreases chunks
  {
    if chunks == [] then [] else chunks[0] + Concat(chunks[1..])
  }

  /** Exclusive or of two naturals, bit by bit. */
  function Xor(a: nat, b: nat): nat {
    if a == 0 && b == 0 then 0 else 2 * Xor(a / 2, b / 2) + (a % 2 + b % 2) % 2
  }

  lemma XorHalves(a: nat, b: nat)
    ensures Xor(a, b) / 2 == Xor(a / 2, b / 2) && Xor(a, b) % 2 == (a % 2 + b % 2) % 2
  {}

  lemma ParityTwice(p: nat, q: nat)
    requires p < 2 && q < 2
    ensures ((p + q) % 2 + q) % 2 == p
  {}

  lemma {:induction false} XorTwice(a: nat, b: nat)
    ensures Xor(Xor(a, b), b) == a
    decreases a + b
  {
    if a != 0 || b != 0 {
      XorTwice(a / 2, b / 2);
      var x := Xor(a, b);
      XorHalves(a, b);
      XorHalves(x, b);
      ParityTwice(a % 2, b % 2);
    }
  }

  lemma {:induction false} XorFits(a: nat, b: nat, k: nat)
    requires a < Pow2(k) && b < Pow2(k)
    ensures Xor(a, b) < Pow2(k)
    decreases k
  {
    if k > 0 && (a != 0 || b != 0) {
      XorFits(a / 2, b / 2, k - 1);
    }
  }

  function XorByte(a: Byte, b: Byte): Byte {
    XorFits(a, b, 8);
    assert Pow2(8) == 256;
    Xor(a, b)
  }
}

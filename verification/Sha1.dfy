/** The streaming and padding of the Sha1 class of src/websocket_server.cc against section 5.1.1 of
    FIPS 180-4, for any compression function in the place of Transform. */
module Sha1Stream {
  import opened Prelude
  import opened Buffers
  import opened Bytes

  const BLOCK: nat := 64

  /** The compression function applied to one whole block after another. */
  function Fold<S>(f: (S, seq<Byte>) -> S, s: S, bytes: seq<Byte>): S
    requires |bytes| % BLOCK == 0
    decreases |bytes|
  {
    if bytes == [] then s else Fold(f, f(s, bytes[..BLOCK]), bytes[BLOCK..])
  }

  function Zeros(k: nat): (z: seq<Byte>)
    ensures |z| == k
  {
    seq(k, i => 0)
  }

  /** The number of zero bytes: the least that makes room for the length at the end of a block. */
  function ZeroCount(n: nat): (k: nat)
    ensures (n + 1 + k + 8) % BLOCK == 0 && k < BLOCK
  {
    (BLOCK + BLOCK - 1 - 8 - n % BLOCK) % BLOCK
  }

  /** The padded message: a one bit, zeros, and the length in bits as 64 bits. */
  function Pad(m: seq<Byte>): (p: seq<Byte>)
    ensures |p| % BLOCK == 0
  {
    m + [0x80] + Zeros(ZeroCount(|m|)) + ToBigEndian(8 * |m| % U64, 8)
  }

  /** What section 5.1.1 of FIPS 180-4 asks of the padding: the message, a one bit, then zero bits, the
      length of the message in bits as the last 64 bits, and no more blocks than that takes. */
  lemma PadShape(m: seq<Byte>)
    ensures var p := Pad(m);
      && |p| % 64 == 0 && |m| + 9 <= |p| < |m| + 9 + 64
      && p[..|m|] == m && p[|m|] == 128 && (forall i :: |m| < i < |p| - 8 ==> p[i] == 0)
      && BigEndian(p[|p| - 8..]) == 8 * |m| % 0x1_0000_0000_0000_0000
  {
    var k, len := ZeroCount(|m|), ToBigEndian(8 * |m| % U64, 8);
    PadParts(m, k, len, Pad(m));
    ReadBack(8 * |m| % U64, 8);
    Pow256Values();
  }

  lemma PadParts(m: seq<Byte>, k: nat, len: seq<Byte>, p: seq<Byte>)
    requires p == m + [0x80] + Zeros(k) + len && |len| == 8
    ensures |p| == |m| + 9 + k && p[..|m|] == m && p[|m|] == 128 && p[|p| - 8..] == len
    ensures forall i :: |m| < i < |p| - 8 ==> p[i] == 0
  {}

  /** The example of that section: abc fills one block. */
  lemma PadAbc(m: seq<Byte>)
    requires m == [0x61, 0x62, 0x63]
    ensures Pad(m) == m + [0x80] + Zeros(52) + [0, 0, 0, 0, 0, 0, 0, 24]
  {
    var n := 8 * |m| % U64;
    SmallInEight(n);
    assert ZeroCount(|m|) == 52;
  }

  lemma SmallInEight(n: nat)
    requires n < 256
    ensures ToBigEndian(n, 8) == [0, 0, 0, 0, 0, 0, 0, n]
  {
    assert n / 256 == 0;
    assert ToBigEndian(0, 3) == [0, 0, 0];
    assert ToBigEndian(0, 5) == [0, 0, 0, 0, 0];
    assert ToBigEndian(0, 7) == [0, 0, 0, 0, 0, 0, 0];
  }

  lemma {:induction false} FoldSplits<S>(f: (S, seq<Byte>) -> S, s: S, a: seq<Byte>, b: seq<Byte>)
    requires |a| % BLOCK == 0 && |b| % BLOCK == 0
    ensures (|a| + |b|) % BLOCK == 0 && Fold(f, s, a + b) == Fold(f, Fold(f, s, a), b)
    decreases |a|
  {
    if a == [] {
      assert a + b == b;
    } else {
      assert (a + b)[..BLOCK] == a[..BLOCK] && (a + b)[BLOCK..] == a[BLOCK..] + b;
      FoldSplits(f, f(s, a[..BLOCK]), a[BLOCK..], b);
    }
  }

  lemma FoldMore<S>(f: (S, seq<Byte>) -> S, s: S, whole: seq<Byte>, block: seq<Byte>)
    requires |whole| % BLOCK == 0 && |block| == BLOCK
    ensures |whole + block| % BLOCK == 0 && Fold(f, s, whole + block) == f(Fold(f, s, whole), block)
  {
    FoldSplits(f, s, whole, block);
    FoldOne(f, Fold(f, s, whole), block);
  }

  lemma FoldOne<S>(f: (S, seq<Byte>) -> S, s: S, block: seq<Byte>)
    requires |block| == BLOCK
    ensures Fold(f, s, block) == f(s, block)
  {
    assert block[..BLOCK] == block && block[BLOCK..] == [];
  }

  /** The whole blocks of a message. */
  function Whole(m: seq<Byte>): (w: seq<Byte>)
    ensures |w| % BLOCK == 0
  {
    m[..|m| - |m| % BLOCK]
  }

  class Sha1<S> {
    const transform: (S, seq<Byte>) -> S
    const start: S
    var state: S
    var bitCount: nat
    var buffer: array<Byte>
    var bufferLen: nat

    /** The object has been given exactly the bytes of m. */
    ghost predicate Has(m: seq<Byte>)
      reads this, buffer
    {
      && buffer.Length == BLOCK && bufferLen == |m| % BLOCK
      && buffer[..bufferLen] == m[|m| - bufferLen..]
      && bitCount == 8 * (|m| - bufferLen) % U64
      && state == Fold(transform, start, Whole(m))
    }

    constructor (transform: (S, seq<Byte>) -> S, start: S)
      ensures this.transform == transform && this.start == start && Has([]) && fresh(buffer)
    {
      this.transform, this.start, state := transform, start, start;
      bitCount, bufferLen := 0, 0;
      buffer := new Byte[BLOCK];
    }

    /** Copies part of the input behind what is buffered, and compresses when the block is full. */
    method Absorb(part: seq<Byte>, ghost m: seq<Byte>)
      requires Has(m) && 0 < |part| <= BLOCK - bufferLen
      modifies this, buffer
      ensures buffer == old(buffer) && Has(m + part)
    {
      ghost var tail := m[|m| - bufferLen..] + part;
      Grow(m, part);
      CopyIn(part);
      assert buffer[..bufferLen] == tail;
      if bufferLen == BLOCK {
        assert buffer[..] == tail;
        Compress(Whole(m));
      }
    }

    /** A full block goes into the state. */
    method Compress(ghost whole: seq<Byte>)
      requires buffer.Length == bufferLen == BLOCK && |whole| % BLOCK == 0
      requires state == Fold(transform, start, whole) && bitCount == 8 * |whole| % U64
      modifies `state, `bitCount, `bufferLen
      ensures bufferLen == 0 && |whole + buffer[..]| % BLOCK == 0
      ensures state == Fold(transform, start, whole + buffer[..]) && bitCount == 8 * (|whole| + BLOCK) % U64
    {
      FoldMore(transform, start, whole, buffer[..]);
      state := transform(state, buffer[..]);
      bitCount := (bitCount + 512) % U64;
      bufferLen := 0;
    }

    method CopyIn(part: seq<Byte>)
      requires buffer.Length == BLOCK && bufferLen + |part| <= BLOCK
      modifies `bufferLen, buffer
      ensures bufferLen == old(bufferLen) + |part|
      ensures buffer[..bufferLen] == old(buffer[..bufferLen]) + part
    {
      forall i | 0 <= i < |part| {
        buffer[bufferLen + i] := part[i];
      }
      bufferLen := bufferLen + |part|;
    }

    /** Any split of a message over calls of Update leaves the same object. */
    method Update(data: seq<Byte>, ghost m: seq<Byte>)
      requires Has(m)
      modifies this, buffer
      ensures buffer == old(buffer) && Has(m + data)
    {
      var rest := data;
      ghost var done := m;
      assert done + rest == m + data;
      while |rest| > 0
        invariant Has(done) && done + rest == m + data && buffer == old(buffer)
        decreases |rest|
      {
        var toCopy := if |rest| < BLOCK - bufferLen then |rest| else BLOCK - bufferLen;
        Absorb(rest[..toCopy], done);
        assert done + rest[..toCopy] + rest[toCopy..] == done + rest;
        done := done + rest[..toCopy];
        rest := rest[toCopy..];
      }
      assert done == m + data;
    }

    /** Pushes zero bytes up to position limit. */
    method FillZeros(limit: nat)
      requires buffer.Length == BLOCK && bufferLen <= limit <= BLOCK
      modifies `bufferLen, buffer
      ensures bufferLen == limit
      ensures buffer[..limit] == old(buffer[..bufferLen]) + Zeros(limit - old(bufferLen))
    {
      ghost var before := buffer[..bufferLen];
      while bufferLen < limit
        invariant |before| <= bufferLen <= limit
        invariant buffer[..bufferLen] == before + Zeros(bufferLen - |before|)
      {
        buffer[bufferLen] := 0;
        bufferLen := bufferLen + 1;
      }
    }

    method AppendLength(totalBits: nat)
      requires buffer.Length == BLOCK && bufferLen == 56
      modifies `bufferLen, buffer
      ensures bufferLen == BLOCK
      ensures buffer[..] == old(buffer[..56]) + ToBigEndian(totalBits, 8)
    {
      ghost var before := buffer[..56];
      for i := 8 downto 0
        invariant bufferLen == 56 + (8 - i)
        invariant buffer[..bufferLen] == before + ToBigEndian(totalBits, 8)[..8 - i]
      {
        DigitAt(totalBits, 8, 7 - i);
        buffer[bufferLen] := (totalBits / Pow256(i)) % 256;
        bufferLen := bufferLen + 1;
      }
    }

    /** Final leaves the digest of the padded message in the state, whether the padding needs one
        block or two. */
    method Final(ghost m: seq<Byte>)
      requires Has(m)
      modifies this, buffer
      ensures state == Fold(transform, start, Pad(m))
    {
      ghost var tail := buffer[..bufferLen];
      var totalBits := (bitCount + bufferLen * 8) % U64;
      TotalBits(|m|, bufferLen);
      assert m == Whole(m) + tail;
      buffer[bufferLen] := 0x80;
      bufferLen := bufferLen + 1;
      assert buffer[..bufferLen] == tail + [0x80];
      if bufferLen > 56 {
        PadTwo(transform, start, m, tail);
        FinishTwo(totalBits, tail);
      } else {
        PadOne(transform, start, m, tail);
        FinishOne(totalBits, tail);
      }
    }

    method FinishOne(totalBits: nat, ghost tail: seq<Byte>)
      requires buffer.Length == BLOCK && bufferLen == |tail| + 1 <= 56 && buffer[..bufferLen] == tail + [0x80]
      modifies this, buffer
      ensures state == transform(old(state), tail + [0x80] + Zeros(55 - |tail|) + ToBigEndian(totalBits, 8))
    {
      FillZeros(56);
      AppendLength(totalBits);
      state := transform(state, buffer[..]);
    }

    method FinishTwo(totalBits: nat, ghost tail: seq<Byte>)
      requires buffer.Length == BLOCK && 56 < bufferLen == |tail| + 1 <= BLOCK && buffer[..bufferLen] == tail + [0x80]
      modifies this, buffer
      ensures state == transform(transform(old(state), tail + [0x80] + Zeros(BLOCK - |tail| - 1)),
                                 Zeros(56) + ToBigEndian(totalBits, 8))
    {
      FillZeros(BLOCK);
      assert buffer[..] == buffer[..BLOCK];
      state := transform(state, buffer[..]);
      bufferLen := 0;
      FillZeros(56);
      assert buffer[..56] == Zeros(56);
      AppendLength(totalBits);
      state := transform(state, buffer[..]);
    }
  }

  /** What part does to the whole blocks and the remainder of a message. */
  lemma Grow(m: seq<Byte>, part: seq<Byte>)
    requires |part| <= BLOCK - |m| % BLOCK
    ensures var l := |m| % BLOCK;
      var tail := m[|m| - l..] + part;
      if l + |part| == BLOCK then |m + part| % BLOCK == 0 && Whole(m + part) == Whole(m) + tail
      else |m + part| % BLOCK == l + |part| && Whole(m + part) == Whole(m)
           && (m + part)[|m + part| - (l + |part|)..] == tail
  {
    var l := |m| % BLOCK;
    var q := |m| / BLOCK;
    if l + |part| == BLOCK {
      DivModUnique(|m + part|, BLOCK, q + 1, 0);
      assert m + part == Whole(m) + (m[|m| - l..] + part);
    } else {
      DivModUnique(|m + part|, BLOCK, q, l + |part|);
    }
  }

  lemma TotalBits(n: nat, l: nat)
    requires l <= n
    ensures (8 * (n - l) % U64 + l * 8) % U64 == 8 * n % U64
  {
    var q, r := 8 * (n - l) / U64, 8 * (n - l) % U64;
    assert 8 * n == r + l * 8 + q * U64;
    ModAddPeriod(r + l * 8, q, U64);
  }

  /** The padding ends in the block the message ends in. */
  lemma PadOne<S>(f: (S, seq<Byte>) -> S, s: S, m: seq<Byte>, tail: seq<Byte>)
    requires m == Whole(m) + tail && |tail| == |m| % BLOCK < 56
    ensures var last := tail + [0x80] + Zeros(55 - |tail|) + ToBigEndian(8 * |m| % U64, 8);
      |last| == BLOCK && Fold(f, s, Pad(m)) == f(Fold(f, s, Whole(m)), last)
  {
    var last := tail + [0x80] + Zeros(55 - |tail|) + ToBigEndian(8 * |m| % U64, 8);
    assert ZeroCount(|m|) == 55 - |tail|;
    assert Pad(m) == Whole(m) + last;
    FoldSplits(f, s, Whole(m), last);
    FoldOne(f, Fold(f, s, Whole(m)), last);
  }

  /** The padding spills into one more block. */
  lemma PadTwo<S>(f: (S, seq<Byte>) -> S, s: S, m: seq<Byte>, tail: seq<Byte>)
    requires m == Whole(m) + tail && |tail| == |m| % BLOCK >= 56
    ensures var a := tail + [0x80] + Zeros(BLOCK - |tail| - 1);
      var b := Zeros(56) + ToBigEndian(8 * |m| % U64, 8);
      |a| == |b| == BLOCK && Fold(f, s, Pad(m)) == f(f(Fold(f, s, Whole(m)), a), b)
  {
    var a := tail + [0x80] + Zeros(BLOCK - |tail| - 1);
    var b := Zeros(56) + ToBigEndian(8 * |m| % U64, 8);
    PadIsTwoBlocks(m, tail);
    FoldMore(f, s, Whole(m), a);
    FoldMore(f, s, Whole(m) + a, b);
  }

  lemma PadIsTwoBlocks(m: seq<Byte>, tail: seq<Byte>)
    requires m == Whole(m) + tail && |tail| == |m| % BLOCK >= 56
    ensures Pad(m) ==
      Whole(m) + (tail + [0x80] + Zeros(BLOCK - |tail| - 1)) + (Zeros(56) + ToBigEndian(8 * |m| % U64, 8))
  {
    var k, len := BLOCK - |tail| - 1, ToBigEndian(8 * |m| % U64, 8);
    SpillingZeros(|m|);
    PadSplits(m, Whole(m), tail, k, len);
    assert Pad(m) == m + [0x80] + Zeros(k + 56) + len;
  }

  lemma SpillingZeros(n: nat)
    requires n % BLOCK >= 56
    ensures ZeroCount(n) == BLOCK - n % BLOCK - 1 + 56
  {}

  lemma PadSplits(m: seq<Byte>, whole: seq<Byte>, tail: seq<Byte>, k: nat, len: seq<Byte>)
    requires m == whole + tail
    ensures m + [0x80] + Zeros(k + 56) + len == whole + (tail + [0x80] + Zeros(k)) + (Zeros(56) + len)
  {
    assert Zeros(k) + Zeros(56) == Zeros(k + 56);
  }

  lemma JoinNext(m: seq<Byte>, chunks: seq<seq<Byte>>, i: nat)
    requires i < |chunks|
    ensures m + chunks[i] + Concat(chunks[i + 1..]) == m + Concat(chunks[i..])
  {
    assert chunks[i..][0] == chunks[i] && chunks[i..][1..] == chunks[i + 1..];
  }

  lemma JoinEnds(m: seq<Byte>, chunks: seq<seq<Byte>>)
    ensures m + Concat(chunks[|chunks|..]) == m
    ensures [] + Concat(chunks[0..]) == Concat(chunks)
  {
    assert chunks[0..] == chunks;
  }

  /** Calls of Update for the pieces one after another. */
  method UpdateAll<S>(h: Sha1<S>, chunks: seq<seq<Byte>>)
    requires h.Has([])
    modifies h, h.buffer
    ensures h.Has(Concat(chunks)) && h.buffer == old(h.buffer)
  {
    ghost var m: seq<Byte> := [];
    JoinEnds(m, chunks);
    for i := 0 to |chunks|
      invariant h.Has(m) && h.buffer == old(h.buffer)
      invariant m + Concat(chunks[i..]) == Concat(chunks)
    {
      JoinNext(m, chunks, i);
      h.Update(chunks[i], m);
      m := m + chunks[i];
    }
    JoinEnds(m, chunks);
  }

  /** However a message is cut into pieces, the digest is that of the padded whole. */
  method Digest<S>(transform: (S, seq<Byte>) -> S, start: S, chunks: seq<seq<Byte>>) returns (d: S)
    ensures d == Fold(transform, start, Pad(Concat(chunks)))
  {
    var h := new Sha1(transform, start);
    UpdateAll(h, chunks);
    h.Final(Concat(chunks));
    d := h.state;
  }
}

/** Taking items off the front of a byte stream that arrives in pieces. A parser looks at the bytes
    received so far and either takes one item or waits. */
module StreamParser {
  import opened Buffers
  import opened Bytes

  datatype Step<+T> = Stop | Item(value: T, consumed: nat)

  /** An item that was complete stays the same item when more bytes arrive, and takes some bytes. */
  ghost predicate Stable<T(!new)>(p: seq<Byte> -> Step<T>) {
    && (forall s :: p(s).Item? ==> 0 < p(s).consumed <= |s|)
    && (forall s, t :: p(s).Item? ==> p(s + t) == p(s))
  }

  /** Take items until the parser stops: the items, and the bytes left over. */
  ghost function ParseAll<T(!new)>(p: seq<Byte> -> Step<T>, s: seq<Byte>): (seq<T>, seq<Byte>)
    requires Stable(p)
    decreases |s|
  {
    if p(s).Stop? then ([], s)
    else
      var (items, rest) := ParseAll(p, s[p(s).consumed..]);
      ([p(s).value] + items, rest)
  }

  /** The pieces of a stream, parsed as they arrive behind what was left over. */
  ghost function Feed<T(!new)>(p: seq<Byte> -> Step<T>, rest: seq<Byte>, chunks: seq<seq<Byte>>): (seq<T>, seq<Byte>)
    requires Stable(p)
    decreases chunks
  {
    if chunks == [] then ([], rest)
    else
      var (items, rest1) := ParseAll(p, rest + chunks[0]);
      var (more, rest2) := Feed(p, rest1, chunks[1..]);
      (items + more, rest2)
  }

  lemma FirstItem<T(!new)>(p: seq<Byte> -> Step<T>, s: seq<Byte>, t: seq<Byte>)
    requires Stable(p) && p(s).Item?
    ensures p(s + t) == p(s) && 0 < p(s).consumed <= |s|
    ensures (s + t)[p(s).consumed..] == s[p(s).consumed..] + t
  {}

  lemma Regroup(a: seq<Byte>, b: seq<Byte>, c: seq<Byte>)
    ensures a + b + c == a + (b + c)
  {}

  /** Parsing what has arrived first and the remainder with the rest later gives the same items. */
  lemma {:induction false} ParseAllSplits<T(!new)>(p: seq<Byte> -> Step<T>, s: seq<Byte>, t: seq<Byte>)
    requires Stable(p)
    ensures var (items, rest) := ParseAll(p, s);
      var (more, rest') := ParseAll(p, rest + t);
      ParseAll(p, s + t) == (items + more, rest')
    decreases |s|
  {
    if p(s).Item? {
      var n := p(s).consumed;
      FirstItem(p, s, t);
      ParseAllSplits(p, s[n..], t);
      var (items, rest) := ParseAll(p, s[n..]);
      var (more, rest') := ParseAll(p, rest + t);
      assert [p(s).value] + (items + more) == ([p(s).value] + items) + more;
    } else {
      assert [] + ParseAll(p, s + t).0 == ParseAll(p, s + t).0;
    }
  }

  lemma {:induction false} LeftoverStops<T(!new)>(p: seq<Byte> -> Step<T>, s: seq<Byte>)
    requires Stable(p)
    ensures p(ParseAll(p, s).1).Stop?
    decreases |s|
  {
    if p(s).Item? {
      LeftoverStops(p, s[p(s).consumed..]);
    }
  }

  /** The items of a stream do not depend on how it is cut into pieces. */
  lemma {:induction false} ChunkingIsInvisible<T(!new)>(p: seq<Byte> -> Step<T>, rest: seq<Byte>,
                                                        chunks: seq<seq<Byte>>)
    requires Stable(p) && p(rest).Stop?
    ensures Feed(p, rest, chunks) == ParseAll(p, rest + Concat(chunks))
    decreases chunks
  {
    if chunks == [] {
      assert rest + [] == rest;
    } else {
      var (items, rest1) := ParseAll(p, rest + chunks[0]);
      LeftoverStops(p, rest + chunks[0]);
      ChunkingIsInvisible(p, rest1, chunks[1..]);
      ParseAllSplits(p, rest + chunks[0], Concat(chunks[1..]));
      Regroup(rest, chunks[0], Concat(chunks[1..]));
    }
  }

  /** encoded is a concatenation of encodings, each of which the parser takes back whatever follows. */
  ghost predicate Encodes<T(!new)>(p: seq<Byte> -> Step<T>, items: seq<T>, parts: seq<seq<Byte>>) {
    && |items| == |parts|
    && forall i, tail :: 0 <= i < |items| ==> p(parts[i] + tail) == Item(items[i], |parts[i]|)
  }

  /** A stream of encoded items, cut anywhere, is read back as exactly those items. */
  lemma EncodedStreamIsReadBack<T(!new)>(p: seq<Byte> -> Step<T>, items: seq<T>, parts: seq<seq<Byte>>,
                                         chunks: seq<seq<Byte>>)
    requires Stable(p) && Encodes(p, items, parts) && Concat(chunks) == Concat(parts) && p([]).Stop?
    ensures Feed(p, [], chunks) == (items, [])
  {
    ChunkingIsInvisible(p, [], chunks);
    assert [] + Concat(chunks) == Concat(chunks);
    ParseAllEncoded(p, items, parts);
  }

  lemma {:induction false} ParseAllEncoded<T(!new)>(p: seq<Byte> -> Step<T>, items: seq<T>, parts: seq<seq<Byte>>)
    requires Stable(p) && Encodes(p, items, parts) && p([]).Stop?
    ensures ParseAll(p, Concat(parts)) == (items, [])
    decreases parts
  {
    if parts != [] {
      var tail := Concat(parts[1..]);
      assert p(parts[0] + tail) == Item(items[0], |parts[0]|);
      assert (parts[0] + tail)[|parts[0]|..] == tail;
      forall i, t | 0 <= i < |items[1..]| ensures p(parts[1..][i] + t) == Item(items[1..][i], |parts[1..][i]|) {
        assert parts[1..][i] == parts[i + 1];
      }
      ParseAllEncoded(p, items[1..], parts[1..]);
      assert [items[0]] + items[1..] == items;
    }
  }
}

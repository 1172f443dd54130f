/** The packet protocol of the push applications (app/traffic_push/traffic_push_server.cc and
    app/stock_push/stock_push_server.cc): a four-byte total length, a two-byte type, a body; and the
    bodies of the login and subscribe messages. */
module Packets {
  import opened Prelude
  import opened Buffers
  import opened Bytes
  import opened StreamParser

  const U32: nat := 0x1_0000_0000
  const HEADER: nat := 6

  const LOGIN: nat := 1
  const SUBSCRIBE: nat := 2
  const PING: nat := 3

  datatype Packet = Packet(kind: nat, body: seq<Byte>)

  /** The type fits 16 bits and the total length 32; beyond that MakePacket writes past its string. */
  predicate Sendable(p: Packet) {
    p.kind < 65536 && HEADER + |p.body| < U32
  }

  function MakePacket(p: Packet): (s: seq<Byte>)
    ensures |s| == HEADER + |p.body|
  {
    ToBigEndian(HEADER + |p.body|, 4) + ToBigEndian(p.kind, 2) + p.body
  }

  function EncodeAll(packets: seq<Packet>): seq<Byte> {
    if packets == [] then [] else MakePacket(packets[0]) + EncodeAll(packets[1..])
  }

  /** The length field is smaller than the header itself: OnMessage shuts the connection. */
  predicate Refused(s: seq<Byte>) {
    |s| >= HEADER && BigEndian(s[..4]) < HEADER
  }

  /** One round of the loop of OnMessage. */
  function PacketStep(s: seq<Byte>): Step<Packet> {
    if |s| < HEADER || Refused(s) then Stop
    else
      var total := BigEndian(s[..4]);
      if |s| < total then Stop
      else Item(Packet(BigEndian(s[4..6]), s[6..total]), total)
  }

  lemma Widths()
    ensures Pow256(2) == 65536 && Pow256(4) == U32
  {
    assert Pow256(1) == 256 && Pow256(2) == 65536 && Pow256(3) == 0x100_0000;
  }

  lemma LongerStep(s: seq<Byte>, t: seq<Byte>)
    requires PacketStep(s).Item?
    ensures PacketStep(s + t) == PacketStep(s)
  {
    var total := BigEndian(s[..4]);
    assert (s + t)[..4] == s[..4] && (s + t)[4..6] == s[4..6] && (s + t)[6..total] == s[6..total];
  }

  lemma PacketStepIsStable()
    ensures Stable(PacketStep)
  {
    forall s, t | PacketStep(s).Item? ensures PacketStep(s + t) == PacketStep(s) {
      LongerStep(s, t);
    }
  }

  lemma PacketLayout(len: seq<Byte>, kind: seq<Byte>, body: seq<Byte>, tail: seq<Byte>)
    requires |len| == 4 && |kind| == 2
    ensures var s := len + kind + body + tail;
      && s[..4] == len && s[4..6] == kind && s[6..6 + |body|] == body
      && s[6 + |body|..] == tail
  {}

  /** One packet is read back whole, whatever follows it. */
  lemma PacketIsReadBack(p: Packet, tail: seq<Byte>)
    requires Sendable(p)
    ensures PacketStep(MakePacket(p) + tail) == Item(p, |MakePacket(p)|)
    ensures (MakePacket(p) + tail)[|MakePacket(p)|..] == tail
  {
    Widths();
    ReadBack(HEADER + |p.body|, 4);
    ReadBack(p.kind, 2);
    PacketLayout(ToBigEndian(HEADER + |p.body|, 4), ToBigEndian(p.kind, 2), p.body, tail);
  }

  /** What one round takes was a packet, byte for byte: the format has no second spelling. */
  lemma TakenBytesWereEncoded(s: seq<Byte>)
    requires PacketStep(s).Item?
    ensures var Item(p, n) := PacketStep(s);
      && Sendable(p) && n == |MakePacket(p)| && n <= |s| && s == MakePacket(p) + s[n..]
  {
    var total := BigEndian(s[..4]);
    Widths();
    WriteBack(s[..4]);
    WriteBack(s[4..6]);
    assert s == s[..4] + s[4..6] + s[6..total] + s[total..];
  }

  /** The exact meaning of the receive loop: it dispatches these packets and leaves that remainder if
      and only if the bytes are those packets encoded one after another, then a remainder that is not
      a whole packet. */
  lemma {:induction false} DispatchedExactly(s: seq<Byte>, packets: seq<Packet>, rest: seq<Byte>)
    ensures Stable(PacketStep)
    ensures ParseAll(PacketStep, s) == (packets, rest)
      <==> (s == EncodeAll(packets) + rest && PacketStep(rest).Stop? && forall p :: p in packets ==> Sendable(p))
  {
    PacketStepIsStable();
    if ParseAll(PacketStep, s) == (packets, rest) {
      LeftoverStops(PacketStep, s);
      DispatchedWereEncoded(s);
    }
    if s == EncodeAll(packets) + rest && PacketStep(rest).Stop? && forall p :: p in packets ==> Sendable(p) {
      EncodedAreDispatched(packets, rest);
    }
  }

  lemma EncodeCons(p: Packet, packets: seq<Packet>, rest: seq<Byte>)
    ensures MakePacket(p) + (EncodeAll(packets) + rest) == EncodeAll([p] + packets) + rest
  {
    assert ([p] + packets)[1..] == packets;
    assert MakePacket(p) + (EncodeAll(packets) + rest) == (MakePacket(p) + EncodeAll(packets)) + rest;
  }

  lemma {:induction false} DispatchedWereEncoded(s: seq<Byte>)
    requires Stable(PacketStep)
    ensures var (packets, rest) := ParseAll(PacketStep, s);
      && s == EncodeAll(packets) + rest
      && forall p :: p in packets ==> Sendable(p)
    decreases |s|
  {
    if PacketStep(s).Item? {
      var Item(p, n) := PacketStep(s);
      TakenBytesWereEncoded(s);
      DispatchedWereEncoded(s[n..]);
      var (packets, rest) := ParseAll(PacketStep, s[n..]);
      EncodeCons(p, packets, rest);
    } else {
      assert [] + s == s;
    }
  }

  lemma {:induction false} EncodedAreDispatched(packets: seq<Packet>, rest: seq<Byte>)
    requires Stable(PacketStep) && PacketStep(rest).Stop?
    requires forall p :: p in packets ==> Sendable(p)
    ensures ParseAll(PacketStep, EncodeAll(packets) + rest) == (packets, rest)
    decreases packets
  {
    if packets == [] {
      assert [] + rest == rest;
    } else {
      var tail := EncodeAll(packets[1..]) + rest;
      assert EncodeAll(packets) + rest == MakePacket(packets[0]) + tail;
      PacketIsReadBack(packets[0], tail);
      EncodedAreDispatched(packets[1..], rest);
      assert [packets[0]] + packets[1..] == packets;
    }
  }

  /** The packets dispatched depend on the bytes received, not on how they were cut into reads. */
  lemma PacketsIgnoreChunking(rest: seq<Byte>, chunks: seq<seq<Byte>>)
    requires PacketStep(rest).Stop?
    ensures Stable(PacketStep)
    ensures Feed(PacketStep, rest, chunks) == ParseAll(PacketStep, rest + Concat(chunks))
  {
    PacketStepIsStable();
    ChunkingIsInvisible(PacketStep, rest, chunks);
  }

  /** Packets sent one after another and cut anywhere arrive as exactly those packets. */
  lemma PacketStreamIsReadBack(packets: seq<Packet>, chunks: seq<seq<Byte>>)
    requires Concat(chunks) == EncodeAll(packets) && forall p :: p in packets ==> Sendable(p)
    ensures Stable(PacketStep) && Feed(PacketStep, [], chunks) == (packets, [])
  {
    PacketsIgnoreChunking([], chunks);
    assert [] + Concat(chunks) == EncodeAll(packets) + [];
    EncodedAreDispatched(packets, []);
  }

  /** A connection refused once dispatches nothing more, however many bytes still arrive. */
  lemma RefusedForGood(rest: seq<Byte>, chunks: seq<seq<Byte>>)
    requires Refused(rest)
    ensures Stable(PacketStep) && Feed(PacketStep, rest, chunks) == ([], rest + Concat(chunks))
    ensures Refused(rest + Concat(chunks))
  {
    PacketsIgnoreChunking(rest, chunks);
    assert (rest + Concat(chunks))[..4] == rest[..4];
  }

  // ---------------------------------------------------------------- message bodies

  /** A two-byte length and that many bytes; a longer string keeps only the low 16 bits of its length. */
  function Field(text: seq<Byte>): seq<Byte> {
    ToBigEndian(|text|, 2) + text
  }

  function Fields(texts: seq<seq<Byte>>): seq<Byte>
    decreases texts
  {
    if texts == [] then [] else Field(texts[0]) + Fields(texts[1..])
  }

  function LengthField(s: seq<Byte>): nat
    requires |s| >= 2
  {
    BigEndian(s[..2])
  }

  function LoginBody(user: seq<Byte>): seq<Byte> {
    Field(user)
  }

  /** HandleLogin: nothing changes when the body is too short for its own length field. */
  function ReadLogin(body: seq<Byte>): Option<seq<Byte>> {
    if |body| < 2 || |body| < 2 + LengthField(body) then None else Some(body[2..2 + LengthField(body)])
  }

  function CodesBody(codes: seq<seq<Byte>>): seq<Byte> {
    ToBigEndian(|codes|, 2) + Fields(codes)
  }

  /** The loop of HandleSubscribe over string codes: it stops early where the bytes run out. */
  function TakeCodes(count: nat, s: seq<Byte>): seq<seq<Byte>> {
    if count == 0 || |s| < 2 || |s| < 2 + LengthField(s) then []
    else [s[2..2 + LengthField(s)]] + TakeCodes(count - 1, s[2 + LengthField(s)..])
  }

  function ReadCodes(body: seq<Byte>): Option<seq<seq<Byte>>> {
    if |body| < 2 then None else Some(TakeCodes(LengthField(body), body[2..]))
  }

  predicate Short16(texts: seq<seq<Byte>>) {
    |texts| < 65536 && forall i :: 0 <= i < |texts| ==> |texts[i]| < 65536
  }

  lemma LengthFieldFits(s: seq<Byte>)
    requires |s| >= 2
    ensures LengthField(s) < 65536
  {
    WriteBack(s[..2]);
    Widths();
  }

  lemma FieldIsReadBack(text: seq<Byte>, tail: seq<Byte>)
    requires |text| < 65536
    ensures var s := Field(text) + tail;
      && LengthField(s) == |text| && |s| == 2 + |text| + |tail|
      && s[2..2 + |text|] == text && s[2 + |text|..] == tail
  {
    Widths();
    ReadBack(|text|, 2);
    assert (Field(text) + tail)[..2] == ToBigEndian(|text|, 2);
  }

  lemma {:induction false} FieldsAreReadBack(texts: seq<seq<Byte>>)
    requires forall i :: 0 <= i < |texts| ==> |texts[i]| < 65536
    ensures TakeCodes(|texts|, Fields(texts)) == texts
    decreases texts
  {
    if texts != [] {
      FieldIsReadBack(texts[0], Fields(texts[1..]));
      FieldsAreReadBack(texts[1..]);
      assert [texts[0]] + texts[1..] == texts;
    }
  }

  lemma {:induction false} TakenAreShort(count: nat, s: seq<Byte>)
    ensures |TakeCodes(count, s)| <= count
    ensures forall i :: 0 <= i < |TakeCodes(count, s)| ==> |TakeCodes(count, s)[i]| < 65536
    decreases count
  {
    if !(count == 0 || |s| < 2 || |s| < 2 + LengthField(s)) {
      LengthFieldFits(s);
      TakenAreShort(count - 1, s[2 + LengthField(s)..]);
    }
  }

  lemma CountIsReadBack(n: nat, tail: seq<Byte>)
    ensures var body := ToBigEndian(n, 2) + tail;
      && body[2..] == tail && LengthField(body) < 65536 && (n < 65536 ==> LengthField(body) == n)
  {
    Widths();
    ReadBack(n, 2);
    assert (ToBigEndian(n, 2) + tail)[..2] == ToBigEndian(n, 2);
  }

  /** HandleSubscribe recovers the list given to BuildSubscribe exactly when the number of codes and
      the length of each fit 16 bits. */
  lemma CodesRoundTripIff(codes: seq<seq<Byte>>)
    ensures ReadCodes(CodesBody(codes)) == Some(codes) <==> Short16(codes)
  {
    var body := CodesBody(codes);
    CountIsReadBack(|codes|, Fields(codes));
    if Short16(codes) {
      FieldsAreReadBack(codes);
    }
    TakenAreShort(LengthField(body), body[2..]);
  }

  /** A body cut short is still accepted, and yields a prefix of the codes the whole body holds. */
  lemma {:induction false} CutCodesArePrefix(count: nat, s: seq<Byte>, k: nat)
    requires k <= |s|
    ensures TakeCodes(count, s[..k]) <= TakeCodes(count, s)
    decreases count
  {
    var t := s[..k];
    if !(count == 0 || |t| < 2 || |t| < 2 + LengthField(t)) {
      var n := 2 + LengthField(t);
      assert t[..2] == s[..2];
      assert t[2..n] == s[2..n];
      assert t[n..] == s[n..][..k - n];
      CutCodesArePrefix(count - 1, s[n..], k - n);
    }
  }

  lemma LoginRoundTripIff(user: seq<Byte>)
    ensures ReadLogin(LoginBody(user)) == Some(user) <==> |user| < 65536
  {
    LengthFieldFits(LoginBody(user));
    if |user| < 65536 {
      FieldIsReadBack(user, []);
      assert LoginBody(user) + [] == LoginBody(user);
    }
  }

  // ---------------------------------------------------------------- numeric identifiers

  function Ids(ids: seq<nat>): (s: seq<Byte>)
    ensures |s| == 4 * |ids|
  {
    if ids == [] then [] else ToBigEndian(ids[0], 4) + Ids(ids[1..])
  }

  /** BuildSubscribe of the traffic client: every identifier takes four bytes. */
  function IdsBody(ids: seq<nat>): seq<Byte> {
    ToBigEndian(|ids|, 2) + Ids(ids)
  }

  function TakeIds(count: nat, s: seq<Byte>): (ids: seq<nat>)
    requires |s| >= 4 * count
    ensures |ids| == count
  {
    if count == 0 then [] else [BigEndian(s[..4])] + TakeIds(count - 1, s[4..])
  }

  /** HandleSubscribe of the traffic server: a body shorter than its count promises is dropped whole. */
  function ReadIds(body: seq<Byte>): Option<seq<nat>> {
    if |body| < 2 || |body| < 2 + 4 * LengthField(body) then None
    else Some(TakeIds(LengthField(body), body[2..]))
  }

  lemma FirstFour(a: seq<Byte>, b: seq<Byte>)
    requires |a| == 4
    ensures (a + b)[..4] == a && (a + b)[4..] == b
  {}

  lemma {:induction false} IdsAreReadBack(ids: seq<nat>)
    requires forall i :: 0 <= i < |ids| ==> ids[i] < U32
    ensures TakeIds(|ids|, Ids(ids)) == ids
    decreases ids
  {
    if ids != [] {
      Widths();
      ReadBack(ids[0], 4);
      FirstFour(ToBigEndian(ids[0], 4), Ids(ids[1..]));
      IdsAreReadBack(ids[1..]);
      assert [ids[0]] + ids[1..] == ids;
    }
  }

  lemma {:induction false} TakenIdsWereEncoded(count: nat, s: seq<Byte>)
    requires |s| >= 4 * count
    ensures Ids(TakeIds(count, s)) == s[..4 * count]
    ensures forall i :: 0 <= i < count ==> TakeIds(count, s)[i] < U32
    decreases count
  {
    if count > 0 {
      Widths();
      WriteBack(s[..4]);
      TakenIdsWereEncoded(count - 1, s[4..]);
      assert ([BigEndian(s[..4])] + TakeIds(count - 1, s[4..]))[1..] == TakeIds(count - 1, s[4..]);
      assert s[..4 * count] == s[..4] + s[4..][..4 * (count - 1)];
    }
  }

  /** The handler hands over these identifiers if and only if the body begins with their encoding;
      what follows it is ignored. */
  lemma IdsReadIff(body: seq<Byte>, ids: seq<nat>)
    ensures ReadIds(body) == Some(ids) <==>
      |ids| < 65536 && IdsBody(ids) <= body && forall i :: 0 <= i < |ids| ==> ids[i] < U32
  {
    if ReadIds(body) == Some(ids) {
      IdsReadWereEncoded(body);
    }
    if |ids| < 65536 && IdsBody(ids) <= body && forall i :: 0 <= i < |ids| ==> ids[i] < U32 {
      EncodedIdsAreRead(ids, body[|IdsBody(ids)|..]);
      assert body == IdsBody(ids) + body[|IdsBody(ids)|..];
    }
  }

  lemma IdsReadWereEncoded(body: seq<Byte>)
    requires ReadIds(body).Some?
    ensures var ids := ReadIds(body).value;
      |ids| < 65536 && IdsBody(ids) <= body && forall i :: 0 <= i < |ids| ==> ids[i] < U32
  {
    var count := LengthField(body);
    LengthFieldFits(body);
    WriteBack(body[..2]);
    TakenIdsWereEncoded(count, body[2..]);
    PrefixInTwo(body, 2, 4 * count);
  }

  lemma PrefixInTwo(s: seq<Byte>, m: nat, n: nat)
    requires m + n <= |s|
    ensures s[..m] + s[m..][..n] <= s
  {}

  lemma EncodedIdsAreRead(ids: seq<nat>, tail: seq<Byte>)
    requires |ids| < 65536 && forall i :: 0 <= i < |ids| ==> ids[i] < U32
    ensures ReadIds(IdsBody(ids) + tail) == Some(ids)
  {
    assert IdsBody(ids) + tail == ToBigEndian(|ids|, 2) + (Ids(ids) + tail);
    CountIsReadBack(|ids|, Ids(ids) + tail);
    IdsAreReadBack(ids);
    TakeIdsIgnoresTail(|ids|, Ids(ids), tail);
  }

  lemma {:induction false} TakeIdsIgnoresTail(count: nat, s: seq<Byte>, tail: seq<Byte>)
    requires |s| == 4 * count
    ensures TakeIds(count, s + tail) == TakeIds(count, s)
    decreases count
  {
    if count > 0 {
      assert (s + tail)[..4] == s[..4] && (s + tail)[4..] == s[4..] + tail;
      TakeIdsIgnoresTail(count - 1, s[4..], tail);
    }
  }

  // ---------------------------------------------------------------- a connection

  /** What the server keeps about one client of the stock service: the user it logged in as, the list
      last handed to its subscriptions, and the pongs it was sent. */
  datatype Session = Session(user: seq<Byte>, codes: seq<seq<Byte>>, pongs: nat)

  function Handle(s: Session, p: Packet): Session {
    if p.kind == LOGIN then
      match ReadLogin(p.body) { case Some(user) => s.(user := user) case None => s }
    else if p.kind == SUBSCRIBE then
      match ReadCodes(p.body) { case Some(codes) => s.(codes := codes) case None => s }
    else if p.kind == PING then s.(pongs := s.pongs + 1)
    else s
  }

  function HandleAll(s: Session, packets: seq<Packet>): Session
    decreases packets
  {
    if packets == [] then s else HandleAll(Handle(s, packets[0]), packets[1..])
  }

  lemma {:induction false} HandleAllSplits(s: Session, a: seq<Packet>, b: seq<Packet>)
    ensures HandleAll(s, a + b) == HandleAll(HandleAll(s, a), b)
    decreases a
  {
    if a == [] {
      assert [] + b == b;
    } else {
      assert (a + b)[1..] == a[1..] + b;
      HandleAllSplits(Handle(s, a[0]), a[1..], b);
    }
  }

  function Pings(n: nat): (packets: seq<Packet>)
    ensures |packets| == n && forall p :: p in packets ==> p == Packet(PING, [])
  {
    if n == 0 then [] else [Packet(PING, [])] + Pings(n - 1)
  }

  lemma {:induction false} PingsAreAnswered(s: Session, n: nat)
    ensures HandleAll(s, Pings(n)) == s.(pongs := s.pongs + n)
    decreases n
  {
    if n > 0 {
      PingsAreAnswered(s.(pongs := s.pongs + 1), n - 1);
    }
  }

  /** What a client of the stock service sends: a login, a subscription, then heartbeats. */
  function ClientPackets(user: seq<Byte>, codes: seq<seq<Byte>>, pings: nat): seq<Packet> {
    [Packet(LOGIN, LoginBody(user)), Packet(SUBSCRIBE, CodesBody(codes))] + Pings(pings)
  }

  /** From the client's lists to the server's session, over any cutting of the stream: the server ends
      with that user, those codes and one pong for each ping if and only if the user name, the number
      of codes and every code are shorter than 65536. */
  lemma ClientIsUnderstoodIff(user: seq<Byte>, codes: seq<seq<Byte>>, pings: nat, chunks: seq<seq<Byte>>,
                              start: Session)
    requires Concat(chunks) == EncodeAll(ClientPackets(user, codes, pings))
    requires HEADER + |LoginBody(user)| < U32 && HEADER + |CodesBody(codes)| < U32
    requires start == Session([], [], 0)
    ensures Stable(PacketStep)
    ensures Feed(PacketStep, [], chunks).1 == []
    ensures HandleAll(start, Feed(PacketStep, [], chunks).0) == Session(user, codes, pings)
      <==> |user| < 65536 && Short16(codes)
  {
    var packets := ClientPackets(user, codes, pings);
    PacketStreamIsReadBack(packets, chunks);
    TwoThenPings(start, user, codes, pings);
    LoginRoundTripIff(user);
    CodesRoundTripIff(codes);
    UserIsKept(user);
  }

  /** The login body always holds the two length bytes and as many more as they can announce. */
  lemma UserIsKept(user: seq<Byte>)
    ensures ReadLogin(LoginBody(user)).Some?
  {
    var body := LoginBody(user);
    assert body[..2] == ToBigEndian(|user|, 2);
    ReadLow(|user|, 2);
  }

  lemma TwoThenPings(s: Session, user: seq<Byte>, codes: seq<seq<Byte>>, pings: nat)
    ensures HandleAll(s, ClientPackets(user, codes, pings))
         == var t := Handle(Handle(s, Packet(LOGIN, LoginBody(user))), Packet(SUBSCRIBE, CodesBody(codes)));
            t.(pongs := t.pongs + pings)
  {
    var login, subscribe := Packet(LOGIN, LoginBody(user)), Packet(SUBSCRIBE, CodesBody(codes));
    HandleAllSplits(s, [login, subscribe], Pings(pings));
    assert [login, subscribe][1..] == [subscribe] && [subscribe][1..] == [];
    assert HandleAll(s, [login, subscribe]) == Handle(Handle(s, login), subscribe) by {
      assert HandleAll(Handle(s, login), [subscribe]) == HandleAll(Handle(Handle(s, login), subscribe), []);
    }
    PingsAreAnswered(Handle(Handle(s, login), subscribe), pings);
  }
}

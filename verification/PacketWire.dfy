/** The packets of the push applications as bytes: what MakePacket writes, what the receive loop takes
    and what each message does to a session, in terms of single bytes and the numbers of the protocol. */
module PacketWire {
  import opened Prelude
  import opened Buffers
  import opened Bytes
  import opened StreamParser
  import opened Packets

  /** The two bytes at i as a number, most significant first. */
  function Two(s: seq<Byte>, i: nat): nat
    requires i + 2 <= |s|
  {
    s[i] as int * 0x100 + s[i + 1]
  }

  function Four(s: seq<Byte>, i: nat): nat
    requires i + 4 <= |s|
  {
    s[i] as int * 0x100_0000 + s[i + 1] as int * 0x1_0000 + s[i + 2] as int * 0x100 + s[i + 3]
  }

  lemma TwoIsBigEndian(s: seq<Byte>, i: nat)
    requires i + 2 <= |s|
    ensures BigEndian(s[i..i + 2]) == Two(s, i)
  {
    assert s[i..i + 2] == [s[i], s[i + 1]];
    BigEndianOfTwo(s[i], s[i + 1]);
  }

  lemma FourIsBigEndian(s: seq<Byte>, i: nat)
    requires i + 4 <= |s|
    ensures BigEndian(s[i..i + 4]) == Four(s, i)
  {
    assert s[i..i + 4] == [] + [s[i], s[i + 1], s[i + 2], s[i + 3]];
    BigEndianOfFour([], s[i], s[i + 1], s[i + 2], s[i + 3]);
  }

  lemma LengthIsTwo(s: seq<Byte>)
    requires |s| >= 2
    ensures LengthField(s) == Two(s, 0)
  {
    assert s[..2] == s[0..2];
    TwoIsBigEndian(s, 0);
  }

  // ---------------------------------------------------------------- packets

  /** A packet on the wire: its whole length in four bytes, its type in two, then its body. */
  lemma PacketBytes(p: Packet)
    requires Sendable(p)
    ensures var s := MakePacket(p);
      |s| == 6 + |p.body| && Four(s, 0) == |s| && Two(s, 4) == p.kind && s[6..] == p.body
  {
    var s := MakePacket(p);
    Widths();
    ReadBack(HEADER + |p.body|, 4);
    ReadBack(p.kind, 2);
    FourIsBigEndian(s, 0);
    TwoIsBigEndian(s, 4);
    assert s[0..4] == ToBigEndian(HEADER + |p.body|, 4) && s[4..6] == ToBigEndian(p.kind, 2);
  }

  /** What one round of the receive loop does: nothing before six bytes, the connection is shut for a
      length below six, and otherwise a packet is taken exactly when as many bytes are there as it says. */
  lemma TakesIff(s: seq<Byte>)
    ensures Refused(s) <==> |s| >= 6 && Four(s, 0) < 6
    ensures PacketStep(s).Item? <==> |s| >= 6 && 6 <= Four(s, 0) <= |s|
    ensures PacketStep(s).Item? ==> PacketStep(s) == Item(Packet(Two(s, 4), s[6..Four(s, 0)]), Four(s, 0))
  {
    if |s| >= 6 {
      assert s[..4] == s[0..4];
      FourIsBigEndian(s, 0);
      TwoIsBigEndian(s, 4);
    }
  }

  lemma SmallNumber(n: nat)
    requires n < 256
    ensures ToBigEndian(n, 2) == [0, n] && ToBigEndian(n, 4) == [0, 0, 0, n]
  {
    assert n / 256 == 0;
    assert ToBigEndian(0, 3) == [0, 0, 0];
    assert ToBigEndian(0, 1) == [0];
  }

  lemma SmallPacket(kind: nat, body: seq<Byte>)
    requires kind < 256 && |body| < 250
    ensures MakePacket(Packet(kind, body)) == [0, 0, 0, |body| + 6, 0, kind] + body
  {
    SmallNumber(kind);
    SmallNumber(|body| + 6);
  }

  lemma PingBytes()
    ensures MakePacket(Packet(PING, [])) == [0, 0, 0, 6, 0, 3]
  {
    SmallPacket(3, []);
  }

  lemma SmallField(text: seq<Byte>)
    requires |text| < 256
    ensures Field(text) == [0, |text|] + text
  {
    SmallNumber(|text|);
  }

  lemma Appended(a: seq<Byte>, b: seq<Byte>, c: seq<Byte>)
    ensures a + (b + c) == a + b + c
  {}

  /** The login of a user with a short name, and a subscription to one short code, byte by byte. */
  lemma LoginBytes(user: seq<Byte>)
    requires |user| <= 200
    ensures MakePacket(Packet(LOGIN, LoginBody(user))) == [0, 0, 0, |user| + 8, 0, 1, 0, |user|] + user
  {
    SmallField(user);
    SmallPacket(LOGIN, LoginBody(user));
    Appended([0, 0, 0, |user| + 8, 0, 1], [0, |user|], user);
  }

  lemma SubscribeBytes(code: seq<Byte>)
    requires |code| <= 200
    ensures MakePacket(Packet(SUBSCRIBE, CodesBody([code])))
         == [0, 0, 0, |code| + 10, 0, 2, 0, 1, 0, |code|] + code
  {
    SmallField(code);
    SmallNumber(1);
    assert Fields([code]) == Field(code) + Fields([]) && Field(code) + [] == Field(code);
    Appended([0, 1], [0, |code|], code);
    assert CodesBody([code]) == [0, 1] + [0, |code|] + code;
    SmallPacket(SUBSCRIBE, CodesBody([code]));
    Appended([0, 0, 0, |code| + 10, 0, 2], [0, 1, 0, |code|], code);
  }

  // ---------------------------------------------------------------- what a body says

  /** The name a login body gives, if it holds as many bytes as it says. */
  lemma LoginReadIff(body: seq<Byte>, user: seq<Byte>)
    ensures ReadLogin(body) == Some(user) <==>
      |body| >= 2 && |body| >= 2 + Two(body, 0) && user == body[2..2 + Two(body, 0)]
  {
    if |body| >= 2 {
      LengthIsTwo(body);
    }
  }

  /** The bytes run out before another code is complete. */
  predicate CutShort(s: seq<Byte>) {
    |s| < 2 || |s| < 2 + Two(s, 0)
  }

  /** The codes a subscription names: those fields stand at the front, and they are as many as the
      count says, or fewer when the bytes run out. */
  ghost predicate Names(count: nat, s: seq<Byte>, codes: seq<seq<Byte>>) {
    && Fields(codes) <= s && (forall i :: 0 <= i < |codes| ==> |codes[i]| < 65536)
    && (|codes| == count || (|codes| < count && CutShort(s[|Fields(codes)|..])))
  }

  lemma FirstField(s: seq<Byte>)
    requires !CutShort(s)
    ensures var n := 2 + Two(s, 0);
      && LengthField(s) == Two(s, 0) && Two(s, 0) < 65536 && s == Field(s[2..n]) + s[n..]
  {
    LengthIsTwo(s);
    LengthFieldFits(s);
    WriteBack(s[..2]);
    assert s == s[..2] + s[2..2 + Two(s, 0)] + s[2 + Two(s, 0)..];
  }

  lemma NamesCons(count: nat, s: seq<Byte>, code: seq<Byte>, more: seq<seq<Byte>>)
    requires count > 0 && Field(code) <= s && |code| < 65536
    ensures Names(count, s, [code] + more) <==> Names(count - 1, s[2 + |code|..], more)
  {
    var codes, rest := [code] + more, s[2 + |code|..];
    assert codes[1..] == more && Fields(codes) == Field(code) + Fields(more);
    assert s == Field(code) + rest;
    PrefixBehind(Field(code), Fields(more), rest);
    if Fields(codes) <= s {
      assert s[|Fields(codes)|..] == rest[|Fields(more)|..];
    }
    assert forall i :: 0 <= i < |more| ==> more[i] == codes[i + 1];
  }

  lemma PrefixBehind(a: seq<Byte>, b: seq<Byte>, rest: seq<Byte>)
    ensures a + b <= a + rest <==> b <= rest
  {
    if a + b <= a + rest {
      assert (a + rest)[|a|..][..|b|] == (a + rest)[..|a + b|][|a|..];
    }
  }

  lemma {:induction false} CodesTakenAreNamed(count: nat, s: seq<Byte>)
    ensures Names(count, s, TakeCodes(count, s))
    decreases count
  {
    if |s| >= 2 {
      LengthIsTwo(s);
    }
    if count > 0 && !CutShort(s) {
      FirstField(s);
      var n := 2 + Two(s, 0);
      CodesTakenAreNamed(count - 1, s[n..]);
      NamesCons(count, s, s[2..n], TakeCodes(count - 1, s[n..]));
    }
  }

  lemma FirstOfFields(codes: seq<seq<Byte>>, s: seq<Byte>)
    requires codes != [] && Fields(codes) <= s
    ensures Field(codes[0]) <= s && s == Field(codes[0]) + s[2 + |codes[0]|..]
  {
    assert Fields(codes) == Field(codes[0]) + Fields(codes[1..]);
    assert s[..|Fields(codes)|] == Fields(codes);
  }

  lemma TakeFirst(count: nat, code: seq<Byte>, rest: seq<Byte>)
    requires count > 0 && |code| < 65536
    ensures TakeCodes(count, Field(code) + rest) == [code] + TakeCodes(count - 1, rest)
  {
    FieldIsReadBack(code, rest);
  }

  lemma NothingTaken(count: nat, s: seq<Byte>)
    requires count == 0 || CutShort(s)
    ensures TakeCodes(count, s) == []
  {
    if |s| >= 2 {
      LengthIsTwo(s);
    }
  }

  lemma {:induction false} NamedCodesAreTaken(count: nat, s: seq<Byte>, codes: seq<seq<Byte>>)
    requires Names(count, s, codes)
    ensures TakeCodes(count, s) == codes
    decreases count
  {
    if codes == [] {
      assert s[0..] == s;
      NothingTaken(count, s);
    } else {
      var code, more, rest := codes[0], codes[1..], s[2 + |codes[0]|..];
      assert codes == [code] + more;
      FirstOfFields(codes, s);
      NamesCons(count, s, code, more);
      NamedCodesAreTaken(count - 1, rest, more);
      TakeFirst(count, code, rest);
    }
  }

  /** What a subscription body means, cut short or not. */
  lemma CodesReadIff(body: seq<Byte>, codes: seq<seq<Byte>>)
    ensures ReadCodes(body) == Some(codes) <==> |body| >= 2 && Names(Two(body, 0), body[2..], codes)
  {
    if |body| >= 2 {
      LengthIsTwo(body);
      CodesTakenAreNamed(Two(body, 0), body[2..]);
      if Names(Two(body, 0), body[2..], codes) {
        NamedCodesAreTaken(Two(body, 0), body[2..], codes);
      }
    }
  }

  /** Identifier i of a subscription to numbers stands in four bytes after the count. */
  lemma {:induction false} IdsBytes(ids: seq<nat>, i: nat)
    requires i < |ids| && ids[i] < U32
    ensures Four(Ids(ids), 4 * i) == ids[i]
    decreases i
  {
    var s, first := Ids(ids), ToBigEndian(ids[0], 4);
    if i == 0 {
      Widths();
      ReadBack(ids[0], 4);
      FourIsBigEndian(s, 0);
      assert s[0..4] == first;
    } else {
      IdsBytes(ids[1..], i - 1);
      assert forall k :: 4 <= k < |s| ==> s[k] == Ids(ids[1..])[k - 4];
    }
  }

  // ---------------------------------------------------------------- what a packet does

  /** A login (type 1) whose name is there changes the user, a subscription (type 2) that holds a count
      replaces the codes, a ping (type 3) earns a pong; nothing else changes anything. */
  lemma HandleByNumber(s: Session, p: Packet)
    ensures var body := p.body;
      && Handle(s, p).user == (if p.kind == 1 && !CutShort(body) then body[2..2 + Two(body, 0)] else s.user)
      && Handle(s, p).pongs == s.pongs + (if p.kind == 3 then 1 else 0)
      && (p.kind != 2 || |body| < 2 ==> Handle(s, p).codes == s.codes)
      && (p.kind == 2 && |body| >= 2 ==> Names(Two(body, 0), body[2..], Handle(s, p).codes))
  {
    if !CutShort(p.body) {
      LoginReadIff(p.body, p.body[2..2 + Two(p.body, 0)]);
    } else if ReadLogin(p.body).Some? {
      LoginReadIff(p.body, ReadLogin(p.body).value);
    }
    if |p.body| >= 2 {
      CodesReadIff(p.body, ReadCodes(p.body).value);
    }
  }

  /** The number of pings among packets. */
  function PingCount(packets: seq<Packet>): nat {
    if packets == [] then 0 else (if packets[0].kind == 3 then 1 else 0) + PingCount(packets[1..])
  }

  /** Every ping is answered once, whatever else is sent. */
  lemma {:induction false} PongsCountPings(s: Session, packets: seq<Packet>)
    ensures HandleAll(s, packets).pongs == s.pongs + PingCount(packets)
    decreases packets
  {
    if packets != [] {
      HandleByNumber(s, packets[0]);
      PongsCountPings(Handle(s, packets[0]), packets[1..]);
    }
  }

  lemma {:induction false} OtherPacketsKeepCodes(s: Session, packets: seq<Packet>)
    requires forall p :: p in packets ==> p.kind != 2
    ensures HandleAll(s, packets).codes == s.codes
    decreases packets
  {
    if packets != [] {
      assert packets[0] in packets;
      HandleByNumber(s, packets[0]);
      OtherPacketsKeepCodes(Handle(s, packets[0]), packets[1..]);
    }
  }

  /** The last subscription counts: what was subscribed to before is forgotten, what is not a
      subscription changes nothing. */
  lemma LastSubscriptionCounts(s: Session, before: seq<Packet>, codes: seq<seq<Byte>>, after: seq<Packet>)
    requires Short16(codes) && forall p :: p in after ==> p.kind != 2
    ensures HandleAll(s, before + [Packet(2, CodesBody(codes))] + after).codes == codes
  {
    var sub := Packet(2, CodesBody(codes));
    CodesRoundTripIff(codes);
    HandleAllSplits(s, before + [sub], after);
    HandleAllSplits(s, before, [sub]);
    assert [sub][1..] == [];
    assert HandleAll(HandleAll(s, before), [sub]) == Handle(HandleAll(s, before), sub);
    OtherPacketsKeepCodes(HandleAll(s, before + [sub]), after);
  }
}

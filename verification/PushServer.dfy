/** The receive loop and the message handlers of the push applications as code, and the builders of
    the messages their clients send. */
module PushServerCode {
  import opened Prelude
  import opened Buffers
  import opened Bytes
  import opened StreamParser
  import P = Packets

  /** One connection of the stock service with its session. shut says that Shutdown has been called. */
  class Client {
    var user: seq<Byte>
    var codes: seq<seq<Byte>>
    var pongs: nat
    var shut: bool

    function Abs(): P.Session
      reads this
    {
      P.Session(user, codes, pongs)
    }

    constructor ()
      ensures Abs() == P.Session([], [], 0) && !shut
    {
      user, codes, pongs, shut := [], [], 0, false;
    }

    /** Dispatches every whole packet of the buffer, leaves the rest in it, and shuts the connection
        when that rest begins with an impossible length. */
    method OnMessage(buf: Buffer)
      requires buf.Valid()
      modifies this, buf
      ensures buf.Valid() && buf.Storage() == old(buf.Storage()) && Stable(P.PacketStep)
      ensures var (packets, rest) := ParseAll(P.PacketStep, old(buf.Contents()));
        && Abs() == P.HandleAll(old(Abs()), packets)
        && buf.Contents() == rest
        && shut == (old(shut) || P.Refused(rest))
    {
      P.PacketStepIsStable();
      ghost var all, start := buf.Contents(), Abs();
      ghost var done: seq<P.Packet> := [];
      ProgressStart(all, start);
      while buf.ReadableBytes() >= P.HEADER
        invariant buf.Valid() && buf.Storage() == old(buf.Storage()) && shut == old(shut)
        invariant Progress(all, done, buf.Contents(), start, Abs())
        decreases |buf.Contents()|
      {
        var data := buf.Peek();
        var total := BigEndian(data[..4]);
        if total < P.HEADER {
          shut := true;
          ProgressEnd(all, done, data, start, Abs());
          return;
        }
        if |data| < total {
          break;
        }
        var packet := P.Packet(BigEndian(data[4..6]), data[6..total]);
        ProgressNext(all, done, data, start, Abs(), packet, total);
        Dispatch(packet);
        RetrievePacket(buf, total);
        done := done + [packet];
      }
      ProgressEnd(all, done, buf.Contents(), start, Abs());
    }

    method RetrievePacket(buf: Buffer, total: nat)
      requires buf.Valid() && total <= |buf.Contents()|
      modifies buf
      ensures buf.Valid() && buf.Storage() == old(buf.Storage())
      ensures buf.Contents() == old(buf.Contents())[total..]
    {
      buf.Retrieve(total);
    }

    method Dispatch(packet: P.Packet)
      modifies this
      ensures Abs() == P.Handle(old(Abs()), packet) && shut == old(shut)
    {
      if packet.kind == P.LOGIN {
        HandleLogin(packet.body);
      } else if packet.kind == P.SUBSCRIBE {
        HandleSubscribe(packet.body);
      } else if packet.kind == P.PING {
        pongs := pongs + 1;
      }
    }

    method HandleLogin(body: seq<Byte>)
      modifies `user
      ensures user == match P.ReadLogin(body) { case Some(u) => u case None => old(user) }
    {
      if |body| < 2 {
        return;
      }
      var idLen := BigEndian(body[..2]);
      if |body| < 2 + idLen {
        return;
      }
      user := body[2..2 + idLen];
    }

    method HandleSubscribe(body: seq<Byte>)
      modifies `codes
      ensures codes == match P.ReadCodes(body) { case Some(c) => c case None => old(codes) }
    {
      if |body| < 2 {
        return;
      }
      codes := ParseCodes(body);
    }
  }

  /** Halfway through OnMessage: done has been dispatched and has brought the session from start to
      now; data is still in the buffer. */
  ghost predicate Progress(all: seq<Byte>, done: seq<P.Packet>, data: seq<Byte>, start: P.Session, now: P.Session) {
    && Stable(P.PacketStep)
    && ParseAll(P.PacketStep, all) == (done + ParseAll(P.PacketStep, data).0, ParseAll(P.PacketStep, data).1)
    && now == P.HandleAll(start, done)
  }

  lemma ProgressStart(all: seq<Byte>, start: P.Session)
    requires Stable(P.PacketStep)
    ensures Progress(all, [], all, start, start)
  {
    assert [] + ParseAll(P.PacketStep, all).0 == ParseAll(P.PacketStep, all).0;
  }

  lemma ProgressNext(all: seq<Byte>, done: seq<P.Packet>, data: seq<Byte>, start: P.Session, now: P.Session,
                     packet: P.Packet, total: nat)
    requires Progress(all, done, data, start, now) && P.PacketStep(data) == Item(packet, total)
    ensures 0 < total <= |data| && Progress(all, done + [packet], data[total..], start, P.Handle(now, packet))
  {
    var more := ParseAll(P.PacketStep, data[total..]).0;
    assert ParseAll(P.PacketStep, data) == ([packet] + more, ParseAll(P.PacketStep, data[total..]).1);
    assert done + ([packet] + more) == (done + [packet]) + more;
    P.HandleAllSplits(start, done, [packet]);
    assert P.HandleAll(now, [packet]) == P.Handle(now, packet) by { assert [packet][1..] == []; }
  }

  lemma ProgressEnd(all: seq<Byte>, done: seq<P.Packet>, data: seq<Byte>, start: P.Session, now: P.Session)
    requires Progress(all, done, data, start, now) && P.PacketStep(data).Stop?
    ensures ParseAll(P.PacketStep, all) == (done, data) && now == P.HandleAll(start, ParseAll(P.PacketStep, all).0)
  {
    assert done + [] == done;
  }

  /** The loop of HandleSubscribe: a pointer and a count of remaining bytes, left early when the bytes
      run out. */
  method ParseCodes(body: seq<Byte>) returns (codes: seq<seq<Byte>>)
    requires |body| >= 2
    ensures P.ReadCodes(body) == Some(codes)
  {
    var count := BigEndian(body[..2]);
    codes := [];
    var p, remaining := 2, |body| - 2;
    for i := 0 to count
      invariant 2 <= p <= |body| && remaining == |body| - p
      invariant codes + P.TakeCodes(count - i, body[p..]) == P.TakeCodes(count, body[2..])
    {
      ghost var before := body[p..];
      if remaining < 2 {
        NothingMore(codes, count - i, before);
        break;
      }
      assert before[..2] == body[p..p + 2];
      var codeLen := BigEndian(body[p..p + 2]);
      p := p + 2;
      remaining := remaining - 2;
      if remaining < codeLen {
        NothingMore(codes, count - i, before);
        break;
      }
      assert before[2..2 + codeLen] == body[p..p + codeLen] && before[2 + codeLen..] == body[p + codeLen..];
      Regrouped(codes, [body[p..p + codeLen]], P.TakeCodes(count - i - 1, body[p + codeLen..]));
      codes := codes + [body[p..p + codeLen]];
      p := p + codeLen;
      remaining := remaining - codeLen;
    }
    assert codes + [] == codes;
  }

  lemma NothingMore(codes: seq<seq<Byte>>, count: nat, s: seq<Byte>)
    requires |s| < 2 || |s| < 2 + P.LengthField(s)
    ensures codes + P.TakeCodes(count, s) == codes
  {}

  lemma Regrouped(a: seq<seq<Byte>>, b: seq<seq<Byte>>, c: seq<seq<Byte>>)
    ensures a + (b + c) == (a + b) + c
  {}

  /** BuildSubscribe of the stock client; count and lengths are cut to 16 bits as they are written. */
  method BuildSubscribe(codes: seq<seq<Byte>>) returns (packet: seq<Byte>)
    requires P.HEADER + |P.CodesBody(codes)| < P.U32
    ensures packet == P.MakePacket(P.Packet(P.SUBSCRIBE, P.CodesBody(codes)))
  {
    var body := ToBigEndian(|codes| % 65536, 2);
    LowDigits(|codes|);
    for i := 0 to |codes|
      invariant body + P.Fields(codes[i..]) == P.CodesBody(codes)
    {
      var code := codes[i];
      LowDigits(|code|);
      assert codes[i..][1..] == codes[i + 1..];
      FieldNext(body, code, P.Fields(codes[i + 1..]));
      body := body + ToBigEndian(|code| % 65536, 2);
      body := body + code;
    }
    assert body + [] == body;
    packet := P.MakePacket(P.Packet(P.SUBSCRIBE, body));
  }

  lemma LowDigits(n: nat)
    ensures ToBigEndian(n % 65536, 2) == ToBigEndian(n, 2)
  {
    var q, r := n / 65536, n % 65536;
    TwoDigits(n);
    TwoDigits(r);
    DivModUnique(n, 256, q * 256 + r / 256, r % 256);
    DivModUnique(q * 256 + r / 256, 256, q, r / 256);
  }

  lemma TwoDigits(n: nat)
    ensures ToBigEndian(n, 2) == [n / 256 % 256, n % 256]
  {
    assert ToBigEndian(n / 256, 1) == [n / 256 % 256];
  }

  lemma FieldNext(body: seq<Byte>, code: seq<Byte>, rest: seq<Byte>)
    ensures body + (P.Field(code) + rest) == body + ToBigEndian(|code|, 2) + code + rest
  {
    Regroup(body, ToBigEndian(|code|, 2), code);
    Regroup(body, P.Field(code), rest);
  }

  /** The traffic server's HandleSubscribe: all the identifiers or nothing. */
  method ParseIds(body: seq<Byte>) returns (result: Option<seq<nat>>)
    ensures result == P.ReadIds(body)
  {
    if |body| < 2 {
      return None;
    }
    var count := BigEndian(body[..2]);
    var expected := 2 + count * 4;
    if |body| < expected {
      return None;
    }
    var ids: seq<nat> := [];
    var p := 2;
    for i := 0 to count
      invariant p == 2 + 4 * i && |body| >= p + 4 * (count - i)
      invariant ids + P.TakeIds(count - i, body[p..]) == P.TakeIds(count, body[2..])
    {
      IdNext(body, p, ids, count - i);
      ids := ids + [BigEndian(body[p..p + 4])];
      p := p + 4;
    }
    assert ids + [] == ids;
    result := Some(ids);
  }

  lemma IdNext(body: seq<Byte>, p: nat, ids: seq<nat>, n: nat)
    requires n > 0 && p + 4 * n <= |body|
    ensures ids + P.TakeIds(n, body[p..]) == ids + [BigEndian(body[p..p + 4])] + P.TakeIds(n - 1, body[p + 4..])
  {
    assert body[p..][..4] == body[p..p + 4] && body[p..][4..] == body[p + 4..];
  }
}

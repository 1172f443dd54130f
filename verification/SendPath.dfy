/** The send path of src/tcp_connection.cc with the interest mask of src/channel.cc, as functions on
    one state value. The kernel's answer n to each write is an input: how many bytes it took, or -1. */
module SendPath {
  import opened Buffers

  /** An epoll mask as the channel builds it: EPOLLIN, EPOLLPRI and EPOLLRDHUP are only ever set
      together, and EPOLLOUT on its own, so two bits determine it. */
  datatype Mask = Mask(reading: bool, writing: bool)

  const NoEvents: Mask := Mask(false, false)

  // ---------------------------------------------------------------- channel

  datatype Interest = NotPolled | Polled(mask: Mask)

  /** events_, registered_ and registered_events_ of a channel, and what the poller holds for it. */
  datatype Chan = Chan(events: Mask, registered: bool, cached: Mask, poller: Interest)

  /** EventLoop::UpdateChannel: add, modify or delete the poller's entry. */
  function UpdateChannel(c: Chan): Chan {
    if !c.registered then
      if c.events != NoEvents then Chan(c.events, true, c.events, Polled(c.events)) else c
    else if c.events == NoEvents then Chan(c.events, false, NoEvents, NotPolled)
    else Chan(c.events, true, c.events, Polled(c.events))
  }

  /** Channel::update goes to the loop only when the cached mask differs. */
  function Update(c: Chan): Chan {
    if !c.registered || c.events != c.cached then UpdateChannel(c) else c
  }

  function EnableReading(c: Chan): Chan {
    Update(c.(events := c.events.(reading := true)))
  }

  function EnableWriting(c: Chan): Chan {
    Update(c.(events := c.events.(writing := true)))
  }

  function DisableWriting(c: Chan): Chan {
    Update(c.(events := c.events.(writing := false)))
  }

  function RemoveChannel(c: Chan): Chan {
    if c.registered then Chan(c.events, false, NoEvents, NotPolled) else c.(cached := NoEvents)
  }

  /** The cached mask is the one the poller holds, and it is the one asked for last. */
  ghost predicate Cached(c: Chan) {
    c.registered && c.poller == Polled(c.cached) && c.cached == c.events && c.events != NoEvents
  }

  predicate WantsWrite(c: Chan) {
    c.poller.Polled? && c.poller.mask.writing
  }

  lemma EnableReadingFacts(c: Chan)
    requires c == Chan(NoEvents, false, NoEvents, NotPolled)
    ensures Cached(EnableReading(c)) && !WantsWrite(EnableReading(c)) && EnableReading(c).events.reading
  {}

  /** The poller holds exactly the cached mask of a registered channel. */
  ghost predicate Synced(c: Chan) {
    && (c.registered ==> c.cached != NoEvents && c.poller == Polled(c.cached))
    && (!c.registered ==> c.poller == NotPolled)
  }

  /** After an update the poller holds the mask asked for, or nothing when it is empty; the cache only
      saves calls that would change nothing. */
  lemma UpdateReachesPoller(c: Chan)
    requires Synced(c)
    ensures Synced(Update(c)) && Update(c).events == c.events
    ensures Update(c).poller == if c.events == NoEvents then NotPolled else Polled(c.events)
    ensures Update(c) == UpdateChannel(c)
  {}

  lemma WriteInterestFacts(c: Chan)
    requires Cached(c) && c.events.reading
    ensures Cached(EnableWriting(c)) && WantsWrite(EnableWriting(c)) && EnableWriting(c).events.reading
    ensures Cached(DisableWriting(c)) && !WantsWrite(DisableWriting(c)) && DisableWriting(c).events.reading
  {}

  // ---------------------------------------------------------------- connection

  /** output holds the readable bytes of output_, wire every byte the kernel has accepted. */
  datatype Conn = Conn(connected: bool, writing: bool, output: seq<Byte>, chan: Chan, wire: seq<Byte>) {
    /** All bytes that have been or will be sent. */
    function Stream(): seq<Byte> {
      wire + output
    }
  }

  function Took(n: int): nat {
    if n < 0 then 0 else n
  }

  /** Keep what is left for the next writable event. */
  function Keep(c: Conn, output: seq<Byte>): Conn {
    c.(output := output, writing := true, chan := EnableWriting(c.chan))
  }

  /** Stop watching for writability if nothing is left. */
  function Settle(c: Conn): Conn {
    if c.output == [] then c.(writing := false, chan := DisableWriting(c.chan)) else c
  }

  /** What the branches that find the whole backlog written leave in output_. The code leaves it as it
      is; with retrieve it is the backlog taken out, which the branch is meant to do. */
  function Backlog(c: Conn, retrieve: bool): seq<Byte> {
    if retrieve then [] else c.output
  }

  function SendInLoop(c: Conn, data: seq<Byte>, n: int, retrieve: bool): Conn
    requires Took(n) <= |c.output| + |data|
  {
    var w := c.(wire := c.wire + (c.output + data)[..Took(n)]);
    if !c.writing && c.output == [] then
      if Took(n) < |data| then Keep(w, c.output + data[Took(n)..]) else w
    else if Took(n) < |c.output| then
      Keep(w, c.output[Took(n)..] + data)
    else
      var consumed := Took(n) - |c.output|;
      var left := Backlog(c, retrieve);
      if consumed < |data| then Keep(w, left + data[consumed..]) else Settle(w.(output := left))
  }

  /** How much SendVecInLoop hands to one writev: with a backlog and an empty first part the second
      part is not among the vectors. */
  function Offered(c: Conn, d1: seq<Byte>, d2: seq<Byte>): seq<Byte> {
    if !c.writing && c.output == [] then d1 + d2
    else if d1 == [] then c.output else c.output + d1 + d2
  }

  function SendVecInLoop(c: Conn, d1: seq<Byte>, d2: seq<Byte>, n: int, retrieve: bool): Conn
    requires Took(n) <= |Offered(c, d1, d2)|
  {
    AfterVec(c.(wire := c.wire + Offered(c, d1, d2)[..Took(n)]), d1, d2, Took(n), retrieve)
  }

  /** What SendVecInLoop does once writev has returned written. */
  function AfterVec(w: Conn, d1: seq<Byte>, d2: seq<Byte>, written: nat, retrieve: bool): Conn {
    if !w.writing && w.output == [] then
      if written < |d1| then Keep(w, w.output + d1[written..] + d2)
      else if written - |d1| < |d2| then Keep(w, w.output + d2[written - |d1|..])
      else Settle(w)
    else if written < |w.output| then
      Keep(w, w.output[written..] + d1 + d2)
    else
      var remain := written - |w.output|;
      var left := Backlog(w, retrieve);
      if remain < |d1| then Keep(w, left + d1[remain..] + d2)
      else if remain - |d1| < |d2| then Keep(w, left + d2[remain - |d1|..])
      else Settle(w.(output := left))
  }

  function HandleClose(c: Conn): Conn {
    if !c.connected then c
    else c.(connected := false, writing := false, chan := RemoveChannel(c.chan))
  }

  /** fatal: the write failed with something other than EAGAIN, EWOULDBLOCK or EINTR. */
  function HandleWrite(c: Conn, n: int, fatal: bool): Conn
    requires n <= |c.output|
  {
    if !c.writing then c
    else if n > 0 then
      Settle(c.(wire := c.wire + c.output[..n], output := c.output[n..]))
    else if n < 0 && fatal then HandleClose(c)
    else c
  }

  /** How a send went, as far as write interest is concerned: which function it was, whether it found
      an empty backlog, and whether the kernel left some of what it was to send. */
  datatype Sent = Sent(vector: bool, idle: bool, leftover: bool) {
    /** It asks the channel for an update: for write interest when something is left, and, in a vector
        send that finds nothing queued, against write interest when nothing is left. */
    predicate Registers() {
      leftover || (vector && idle)
    }
  }

  // ---------------------------------------------------------------- invariant

  /** While connected, writing_, a non-empty backlog and write interest in the poller are one thing. */
  ghost predicate Inv(c: Conn) {
    c.connected ==>
      && Cached(c.chan) && c.chan.events.reading
      && (c.writing <==> c.output != [])
      && (c.writing <==> WantsWrite(c.chan))
  }

  lemma KeepInv(c: Conn, output: seq<Byte>)
    requires c.connected ==> Cached(c.chan) && c.chan.events.reading
    requires output != []
    ensures Inv(Keep(c, output))
  {
    if c.connected {
      WriteInterestFacts(c.chan);
    }
  }

  lemma SettleInv(c: Conn)
    requires c.connected ==> Cached(c.chan) && c.chan.events.reading
    requires c.connected && c.output != [] ==> Inv(c)
    ensures Inv(Settle(c))
  {
    if c.connected {
      WriteInterestFacts(c.chan);
    }
  }

  lemma SendKeepsInv(c: Conn, data: seq<Byte>, n: int, retrieve: bool)
    requires Inv(c) && Took(n) <= |c.output| + |data|
    ensures Inv(SendInLoop(c, data, n, retrieve))
  {
    var w := c.(wire := c.wire + (c.output + data)[..Took(n)]);
    if !c.writing && c.output == [] {
      if Took(n) < |data| {
        KeepInv(w, c.output + data[Took(n)..]);
      }
    } else if Took(n) < |c.output| {
      KeepInv(w, c.output[Took(n)..] + data);
    } else {
      var consumed := Took(n) - |c.output|;
      if consumed < |data| {
        KeepInv(w, Backlog(c, retrieve) + data[consumed..]);
      } else {
        SettleInv(w.(output := Backlog(c, retrieve)));
      }
    }
  }

  lemma SendVecKeepsInv(c: Conn, d1: seq<Byte>, d2: seq<Byte>, n: int, retrieve: bool)
    requires Inv(c) && Took(n) <= |Offered(c, d1, d2)|
    ensures Inv(SendVecInLoop(c, d1, d2, n, retrieve))
  {
    var w := c.(wire := c.wire + Offered(c, d1, d2)[..Took(n)]);
    var left := if !c.writing && c.output == [] then c.output else Backlog(c, retrieve);
    var data := d1 + d2;
    SendVecShape(c, d1, d2, n, retrieve);
    if Took(n) < |c.output| {
      KeepInv(w, c.output[Took(n)..] + data);
    } else if Took(n) - |c.output| < |data| {
      KeepInv(w, left + data[Took(n) - |c.output|..]);
    } else {
      SettleInv(w.(output := left));
    }
  }

  /** The rest of two parts, of which m bytes are written, queued behind left. */
  lemma RestOfTwo(left: seq<Byte>, d1: seq<Byte>, d2: seq<Byte>, m: nat)
    requires m < |d1 + d2|
    ensures m < |d1| ==> left + d1[m..] + d2 == left + (d1 + d2)[m..]
    ensures m >= |d1| ==> left + d2[m - |d1|..] == left + (d1 + d2)[m..]
  {
    if m < |d1| {
      assert d1[m..] + d2 == (d1 + d2)[m..];
    } else {
      assert d2[m - |d1|..] == (d1 + d2)[m..];
    }
  }

  /** What is done with the answer treats the two parts as one. */
  lemma AfterVecShape(w: Conn, d1: seq<Byte>, d2: seq<Byte>, t: nat, retrieve: bool)
    ensures var left := if !w.writing && w.output == [] then w.output else Backlog(w, retrieve);
      var data := d1 + d2;
      AfterVec(w, d1, d2, t, retrieve) ==
        if t < |w.output| then Keep(w, w.output[t..] + data)
        else if t - |w.output| < |data| then Keep(w, left + data[t - |w.output|..])
        else Settle(w.(output := left))
  {
    if t < |w.output| {
      assert w.output[t..] + d1 + d2 == w.output[t..] + (d1 + d2);
    } else if t - |w.output| < |d1 + d2| {
      var left := if !w.writing && w.output == [] then w.output else Backlog(w, retrieve);
      RestOfTwo(left, d1, d2, t - |w.output|);
    }
  }

  /** SendVecInLoop treats its two parts as one payload, except that with nothing queued and
      everything taken it also settles. */
  lemma SendVecShape(c: Conn, d1: seq<Byte>, d2: seq<Byte>, n: int, retrieve: bool)
    requires Took(n) <= |Offered(c, d1, d2)|
    ensures var w := c.(wire := c.wire + Offered(c, d1, d2)[..Took(n)]);
      var left := if !c.writing && c.output == [] then c.output else Backlog(c, retrieve);
      var data := d1 + d2;
      SendVecInLoop(c, d1, d2, n, retrieve) ==
        if Took(n) < |c.output| then Keep(w, c.output[Took(n)..] + data)
        else if Took(n) - |c.output| < |data| then Keep(w, left + data[Took(n) - |c.output|..])
        else Settle(w.(output := left))
  {
    AfterVecShape(c.(wire := c.wire + Offered(c, d1, d2)[..Took(n)]), d1, d2, Took(n), retrieve);
  }

  lemma HandleWriteKeepsInv(c: Conn, n: int, fatal: bool)
    requires Inv(c) && n <= |c.output|
    ensures Inv(HandleWrite(c, n, fatal))
  {
    if c.writing && n > 0 {
      var d := c.(wire := c.wire + c.output[..n], output := c.output[n..]);
      if d.output == [] {
        if c.connected {
          WriteInterestFacts(c.chan);
        }
      }
    }
  }

  // ---------------------------------------------------------------- the byte stream

  /** The branch that forgets to retrieve: the kernel took the whole, non-empty backlog. */
  predicate Overrun(c: Conn, n: int) {
    c.output != [] && Took(n) >= |c.output|
  }

  /** What the stream becomes when the kernel has taken t bytes of old + data and rest is kept. */
  lemma Regroup(wire: seq<Byte>, old_: seq<Byte>, data: seq<Byte>, t: nat)
    requires t <= |old_| + |data|
    ensures t < |old_| ==> wire + (old_ + data)[..t] + (old_[t..] + data) == wire + old_ + data
    ensures t >= |old_| ==> (old_ + data)[..t] == old_ + data[..t - |old_|]
    ensures t >= |old_| ==> data[..t - |old_|] + data[t - |old_|..] == data
  {
    if t < |old_| {
      assert (old_ + data)[..t] + (old_[t..] + data) == old_ + data;
    }
  }

  /** The kernel took t bytes of old + data, and left is kept in front of what it did not take. */
  lemma TakenAndKept(wire: seq<Byte>, old_: seq<Byte>, left: seq<Byte>, data: seq<Byte>, t: nat)
    requires |old_| <= t <= |old_| + |data|
    ensures wire + (old_ + data)[..t] + (left + data[t - |old_|..])
            == wire + old_ + data[..t - |old_|] + left + data[t - |old_|..]
    ensures left == [] ==> wire + (old_ + data)[..t] + (left + data[t - |old_|..]) == wire + old_ + data
  {
    Regroup(wire, old_, data, t);
    var m := t - |old_|;
    assert wire + (old_ + data)[..t] == wire + old_ + data[..m];
    if left == [] {
      assert left + data[m..] == data[m..];
      assert wire + old_ + data[..m] + data[m..] == wire + old_ + (data[..m] + data[m..]);
    }
  }

  /** One send adds its payload to the stream, if the branch retrieves the backlog or is not entered
      with one; otherwise the backlog is in the stream twice. */
  ghost predicate SentStream(c: Conn, data: seq<Byte>, n: int, retrieve: bool, s: seq<Byte>) {
    if retrieve || !Overrun(c, n) then s == c.Stream() + data
    else
      && Took(n) - |c.output| <= |data|
      && s == c.Stream() + data[..Took(n) - |c.output|] + c.output + data[Took(n) - |c.output|..]
  }

  /** What becomes of the stream when the kernel takes t bytes of backlog and data, and left is kept in
      front of the rest of data once the backlog is written. */
  function StreamAfter(c: Conn, data: seq<Byte>, t: nat, left: seq<Byte>): seq<Byte>
    requires t <= |c.output| + |data|
  {
    c.wire + (c.output + data)[..t]
    + (if t < |c.output| then c.output[t..] + data
       else if t - |c.output| < |data| then left + data[t - |c.output|..] else left)
  }

  function Left(c: Conn, retrieve: bool): seq<Byte> {
    if !c.writing && c.output == [] then c.output else Backlog(c, retrieve)
  }

  lemma StreamAfterIsSent(c: Conn, data: seq<Byte>, n: int, retrieve: bool)
    requires Took(n) <= |c.output| + |data|
    ensures SentStream(c, data, n, retrieve, StreamAfter(c, data, Took(n), Left(c, retrieve)))
  {
    var t, left := Took(n), Left(c, retrieve);
    if t < |c.output| {
      Regroup(c.wire, c.output, data, t);
    } else {
      TakenAndKept(c.wire, c.output, left, data, t);
      NothingKept(left, data, t - |c.output|);
    }
  }

  lemma SendStream(c: Conn, data: seq<Byte>, n: int, retrieve: bool)
    requires Took(n) <= |c.output| + |data|
    ensures SentStream(c, data, n, retrieve, SendInLoop(c, data, n, retrieve).Stream())
  {
    StreamAfterIsSent(c, data, n, retrieve);
  }

  lemma SendVecStream(c: Conn, d1: seq<Byte>, d2: seq<Byte>, n: int, retrieve: bool)
    requires Took(n) <= |Offered(c, d1, d2)|
    ensures SentStream(c, d1 + d2, n, retrieve, SendVecInLoop(c, d1, d2, n, retrieve).Stream())
  {
    SendVecShape(c, d1, d2, n, retrieve);
    OfferedIsPrefix(c, d1, d2, Took(n));
    StreamAfterIsSent(c, d1 + d2, n, retrieve);
    assert SendVecInLoop(c, d1, d2, n, retrieve).Stream() == StreamAfter(c, d1 + d2, Took(n), Left(c, retrieve));
  }

  /** Whatever part of the offer the kernel takes is the front of backlog and payload. */
  lemma OfferedIsPrefix(c: Conn, d1: seq<Byte>, d2: seq<Byte>, t: nat)
    requires t <= |Offered(c, d1, d2)|
    ensures t <= |c.output| + |d1 + d2| && Offered(c, d1, d2)[..t] == (c.output + (d1 + d2))[..t]
  {
    if c.writing || c.output != [] {
      assert c.output + d1 + d2 == c.output + (d1 + d2);
    } else {
      assert c.output + (d1 + d2) == d1 + d2;
    }
  }

  lemma NothingKept(left: seq<Byte>, data: seq<Byte>, m: nat)
    requires m <= |data|
    ensures m == |data| ==> left + data[m..] == left
  {}

  // ---------------------------------------------------------------- runs

  datatype Action =
    | Send(data: seq<Byte>, n: int)
    | SendVec(d1: seq<Byte>, d2: seq<Byte>, n: int)
    | Writable(n: int, fatal: bool)

  /** The kernel takes at most what it is offered. */
  predicate Possible(c: Conn, a: Action) {
    match a
    case Send(data, n) => Took(n) <= |c.output| + |data|
    case SendVec(d1, d2, n) => Took(n) <= |Offered(c, d1, d2)|
    case Writable(n, _) => n <= |c.output|
  }

  function Apply(c: Conn, a: Action, retrieve: bool): Conn
    requires Possible(c, a)
  {
    match a
    case Send(data, n) => SendInLoop(c, data, n, retrieve)
    case SendVec(d1, d2, n) => SendVecInLoop(c, d1, d2, n, retrieve)
    case Writable(n, fatal) => HandleWrite(c, n, fatal)
  }

  ghost predicate PossibleRun(c: Conn, acts: seq<Action>, retrieve: bool)
    decreases acts
  {
    acts != [] ==> Possible(c, acts[0]) && PossibleRun(Apply(c, acts[0], retrieve), acts[1..], retrieve)
  }

  ghost function ApplyAll(c: Conn, acts: seq<Action>, retrieve: bool): Conn
    requires PossibleRun(c, acts, retrieve)
    decreases acts
  {
    if acts == [] then c else ApplyAll(Apply(c, acts[0], retrieve), acts[1..], retrieve)
  }

  function Payload(a: Action): seq<Byte> {
    match a
    case Send(data, _) => data
    case SendVec(d1, d2, _) => d1 + d2
    case Writable(_, _) => []
  }

  function Payloads(acts: seq<Action>): seq<Byte>
    decreases acts
  {
    if acts == [] then [] else Payload(acts[0]) + Payloads(acts[1..])
  }

  /** The send enters, with bytes queued, the branch for a backlog written completely. */
  predicate Overruns(c: Conn, a: Action) {
    !a.Writable? && Overrun(c, a.n)
  }

  ghost predicate EverOverruns(c: Conn, acts: seq<Action>)
    requires PossibleRun(c, acts, false)
    decreases acts
  {
    acts != [] && (Overruns(c, acts[0]) || EverOverruns(Apply(c, acts[0], false), acts[1..]))
  }

  lemma StepStream(c: Conn, a: Action, retrieve: bool)
    requires Possible(c, a)
    ensures retrieve || !Overruns(c, a) ==> Apply(c, a, retrieve).Stream() == c.Stream() + Payload(a)
    ensures !retrieve && Overruns(c, a) ==>
              |Apply(c, a, retrieve).Stream()| == |c.Stream()| + |Payload(a)| + |c.output|
  {
    match a
    case Send(data, n) => SendStream(c, data, n, retrieve);
    case SendVec(d1, d2, n) => SendVecStream(c, d1, d2, n, retrieve);
    case Writable(n, fatal) =>
      if c.writing && n > 0 {
        assert c.output == c.output[..n] + c.output[n..];
        assert c.wire + c.output[..n] + c.output[n..] == c.wire + c.output;
      }
      assert c.Stream() + [] == c.Stream();
  }

  lemma Assoc(a: seq<Byte>, b: seq<Byte>, c: seq<Byte>)
    ensures a + b + c == a + (b + c)
  {}

  /** With the backlog retrieved, nothing is lost, repeated or reordered, whatever the kernel takes:
      the bytes it accepted, followed by the backlog, are all payloads in send order. */
  lemma {:induction false} RetrievingConserves(c: Conn, acts: seq<Action>)
    requires PossibleRun(c, acts, true)
    ensures ApplyAll(c, acts, true).Stream() == c.Stream() + Payloads(acts)
    decreases acts
  {
    if acts == [] {
      assert c.Stream() + [] == c.Stream();
    } else {
      var d := Apply(c, acts[0], true);
      StepStream(c, acts[0], true);
      RetrievingConserves(d, acts[1..]);
      Assoc(c.Stream(), Payload(acts[0]), Payloads(acts[1..]));
    }
  }

  lemma {:induction false} LiteralRun(c: Conn, acts: seq<Action>)
    requires PossibleRun(c, acts, false)
    ensures !EverOverruns(c, acts) ==> ApplyAll(c, acts, false).Stream() == c.Stream() + Payloads(acts)
    ensures |ApplyAll(c, acts, false).Stream()| >= |c.Stream()| + |Payloads(acts)|
    ensures EverOverruns(c, acts) ==> |ApplyAll(c, acts, false).Stream()| > |c.Stream()| + |Payloads(acts)|
    decreases acts
  {
    if acts == [] {
      assert c.Stream() + [] == c.Stream();
    } else {
      var d := Apply(c, acts[0], false);
      StepStream(c, acts[0], false);
      LiteralRun(d, acts[1..]);
      Assoc(c.Stream(), Payload(acts[0]), Payloads(acts[1..]));
    }
  }

  /** The code as it stands conserves the byte stream exactly on the runs in which no send enters,
      with bytes queued, the branch for a backlog written completely. */
  lemma LiteralConservesIff(c: Conn, acts: seq<Action>)
    requires PossibleRun(c, acts, false)
    ensures ApplyAll(c, acts, false).Stream() == c.Stream() + Payloads(acts) <==> !EverOverruns(c, acts)
  {
    LiteralRun(c, acts);
  }

  /** A connection as TcpConnection's constructor leaves it. */
  const Fresh: Conn := Conn(true, false, [], EnableReading(Chan(NoEvents, false, NoEvents, NotPolled)), [])

  /** On a new connection: a byte the kernel does not take yet, a second byte with which it takes both,
      and a writable socket. The peer receives the first byte twice. */
  lemma BacklogIsSentTwice(x: Byte, y: Byte)
    ensures Inv(Fresh)
    ensures var acts := [Send([x], 0), Send([y], 2), Writable(1, false)];
      PossibleRun(Fresh, acts, false) && ApplyAll(Fresh, acts, false).wire == [x, y, x]
  {
    var acts := [Send([x], 0), Send([y], 2), Writable(1, false)];
    var b := Apply(Fresh, acts[0], false);
    assert b.wire == [] && b.output == [x] && b.writing;
    assert ([x] + [y])[..2] == [x, y];
    var d := Apply(b, acts[1], false);
    assert d == b.(wire := [x, y]);
    var e := Apply(d, acts[2], false);
    assert e.wire == [x, y] + [x][..1] == [x, y, x];
    assert acts[1..][0] == acts[1] && acts[1..][1..] == [acts[2]] && [acts[2]][1..] == [];
    assert PossibleRun(e, [], false) && ApplyAll(e, [], false) == e;
    assert PossibleRun(d, [acts[2]], false) && ApplyAll(d, [acts[2]], false) == e;
    assert PossibleRun(b, acts[1..], false) && ApplyAll(b, acts[1..], false) == e;
  }

  /** In every state of every run, while the connection is up: writing_, queued bytes and write
      interest in the poller agree, and the channel's cached mask is the poller's. */
  lemma {:induction false} RunKeepsInv(c: Conn, acts: seq<Action>, retrieve: bool)
    requires PossibleRun(c, acts, retrieve) && Inv(c)
    ensures Inv(ApplyAll(c, acts, retrieve))
    decreases acts
  {
    if acts != [] {
      match acts[0] {
        case Send(data, n) => SendKeepsInv(c, data, n, retrieve);
        case SendVec(d1, d2, n) => SendVecKeepsInv(c, d1, d2, n, retrieve);
        case Writable(n, fatal) => HandleWriteKeepsInv(c, n, fatal);
      }
      RunKeepsInv(Apply(c, acts[0], retrieve), acts[1..], retrieve);
    }
  }

  // ---------------------------------------------------------------- one action

  /** What an action puts before the kernel: the backlog, then the payload. */
  function Shown(c: Conn, a: Action): seq<Byte> {
    match a
    case Send(data, _) => c.output + data
    case SendVec(d1, d2, _) => c.output + d1 + d2
    case Writable(_, _) => if c.writing then c.output else []
  }

  /** The bytes accepted by the kernel grow by exactly the first bytes shown to it, as many as its
      answer says; with a backlog and an empty first part, a vector send does not offer the second. */
  lemma WireGrows(c: Conn, a: Action, retrieve: bool)
    requires Possible(c, a)
    ensures var t := if a.Writable? && !c.writing then 0 else Took(a.n);
      t <= |Shown(c, a)| && Apply(c, a, retrieve).wire == c.wire + Shown(c, a)[..t]
    ensures a.SendVec? && a.d1 == [] && (c.writing || c.output != []) ==> Took(a.n) <= |c.output|
  {
    match a
    case Send(_, _) =>
    case SendVec(d1, d2, n) =>
      OfferIsShown(c, d1, d2);
      AfterVecKeepsWire(c.(wire := c.wire + Offered(c, d1, d2)[..Took(n)]), d1, d2, Took(n), retrieve);
    case Writable(n, _) =>
      assert c.wire + [] == c.wire;
  }

  lemma OfferIsShown(c: Conn, d1: seq<Byte>, d2: seq<Byte>)
    ensures Offered(c, d1, d2) <= c.output + d1 + d2
  {
    if !c.writing && c.output == [] {
      assert c.output + d1 + d2 == d1 + d2;
    } else if d1 == [] {
      assert c.output + d1 + d2 == c.output + d2;
    }
  }

  lemma AfterVecKeepsWire(w: Conn, d1: seq<Byte>, d2: seq<Byte>, t: nat, retrieve: bool)
    ensures AfterVec(w, d1, d2, t, retrieve).wire == w.wire
  {}

  /** Of all actions only a write that fails for good closes the connection, and only while a backlog is
      being written. */
  lemma ClosesIff(c: Conn, a: Action, retrieve: bool)
    requires Possible(c, a) && c.connected
    ensures !Apply(c, a, retrieve).connected <==> a.Writable? && c.writing && a.n < 0 && a.fatal
  {
    if a.SendVec? {
      SendVecShape(c, a.d1, a.d2, a.n, retrieve);
    }
  }

  /** A write that could not go on for now, or took nothing, changes nothing. */
  lemma TryAgainChangesNothing(c: Conn, n: int, fatal: bool)
    requires n <= 0 && (n < 0 ==> !fatal)
    ensures HandleWrite(c, n, fatal) == c
  {}

  /** Closing keeps the bytes and the history, and a closed connection cannot be closed again. */
  lemma CloseTwice(c: Conn)
    ensures HandleClose(HandleClose(c)) == HandleClose(c) && !HandleClose(c).connected
    ensures HandleClose(c).output == c.output && HandleClose(c).wire == c.wire
  {}

  // ---------------------------------------------------------------- after the close

  /** Closed, and the poller has forgotten the channel. */
  ghost predicate CutOff(c: Conn) {
    && !c.connected && !c.writing && c.chan.events.reading
    && !c.chan.registered && c.chan.poller == NotPolled
  }

  lemma CloseCutsOff(c: Conn)
    requires Inv(c) && c.connected
    ensures CutOff(HandleClose(c))
  {}

  /** The send that a is on c. */
  function SentBy(c: Conn, a: Action): Sent
    requires !a.Writable?
  {
    Sent(a.SendVec?, c.output == [], Took(a.n) < |c.output| + |Payload(a)|)
  }

  predicate Registers(c: Conn, a: Action) {
    !a.Writable? && SentBy(c, a).Registers()
  }

  /** Sending does not look at the state: after the connection has closed, a send puts its channel
      back into the poller exactly when the kernel leaves something of backlog and payload, or it is a
      vector send that finds no backlog. Otherwise the channel stays out. */
  lemma SendAfterCloseRegistersIff(c: Conn, a: Action)
    requires CutOff(c) && Possible(c, a)
    ensures Apply(c, a, false).chan.poller.Polled? <==> Registers(c, a)
    ensures if Registers(c, a) then BackInPoller(Apply(c, a, false)) else CutOff(Apply(c, a, false))
  {
    if a.SendVec? {
      SendVecShape(c, a.d1, a.d2, a.n, false);
    }
  }

  /** Closed, and polled all the same. */
  ghost predicate BackInPoller(c: Conn) {
    !c.connected && Cached(c.chan) && c.chan.events.reading
  }

  lemma BackStaysBack(c: Conn, a: Action)
    requires BackInPoller(c) && Possible(c, a)
    ensures BackInPoller(Apply(c, a, false))
  {
    WriteInterestFacts(c.chan);
    if a.SendVec? {
      SendVecShape(c, a.d1, a.d2, a.n, false);
    }
  }

  ghost predicate EverRegisters(c: Conn, acts: seq<Action>)
    requires PossibleRun(c, acts, false)
    decreases acts
  {
    acts != [] && (Registers(c, acts[0]) || EverRegisters(Apply(c, acts[0], false), acts[1..]))
  }

  lemma {:induction false} BackForGood(c: Conn, acts: seq<Action>)
    requires PossibleRun(c, acts, false) && BackInPoller(c)
    ensures BackInPoller(ApplyAll(c, acts, false))
    decreases acts
  {
    if acts != [] {
      BackStaysBack(c, acts[0]);
      BackForGood(Apply(c, acts[0], false), acts[1..]);
    }
  }

  /** Over any run after the close: the poller holds the closed connection's channel at the end exactly
      when some send of the run was such a send. Nothing takes it out again. */
  lemma {:induction false} ClosedChannelReturnsIff(c: Conn, acts: seq<Action>)
    requires PossibleRun(c, acts, false) && CutOff(c)
    ensures ApplyAll(c, acts, false).chan.poller.Polled? <==> EverRegisters(c, acts)
    decreases acts
  {
    if acts != [] {
      var d := Apply(c, acts[0], false);
      SendAfterCloseRegistersIff(c, acts[0]);
      if Registers(c, acts[0]) {
        BackForGood(d, acts[1..]);
      } else {
        ClosedChannelReturnsIff(d, acts[1..]);
      }
    }
  }
}

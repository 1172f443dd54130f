/** SendInLoop, SendVecInLoop, HandleWrite and HandleClose of src/tcp_connection.cc, and the channel
    methods of src/channel.cc with UpdateChannel and RemoveChannel of src/event_loop.cc, as code. */
module TcpConnectionCode {
  import opened Buffers
  import P = SendPath

  class Channel {
    var events: P.Mask
    var registered: bool
    var registeredEvents: P.Mask
    var poller: P.Interest

    ghost function Abs(): P.Chan
      reads this
    {
      P.Chan(events, registered, registeredEvents, poller)
    }

    constructor ()
      ensures Abs() == P.Chan(P.NoEvents, false, P.NoEvents, P.NotPolled)
    {
      events, registered, registeredEvents, poller := P.NoEvents, false, P.NoEvents, P.NotPolled;
    }

    method UpdateChannel()
      modifies this
      ensures Abs() == P.UpdateChannel(old(Abs()))
    {
      if !registered {
        if events != P.NoEvents {
          poller := P.Polled(events);
          registered := true;
          registeredEvents := events;
        }
      } else if events == P.NoEvents {
        poller := P.NotPolled;
        registered := false;
        registeredEvents := P.NoEvents;
      } else {
        poller := P.Polled(events);
        registeredEvents := events;
      }
    }

    method Update()
      modifies this
      ensures Abs() == P.Update(old(Abs()))
    {
      if !registered || events != registeredEvents {
        UpdateChannel();
      }
    }

    method EnableReading()
      modifies this
      ensures Abs() == P.EnableReading(old(Abs()))
    {
      events := events.(reading := true);
      Update();
    }

    method EnableWriting()
      modifies this
      ensures Abs() == P.EnableWriting(old(Abs()))
    {
      events := events.(writing := true);
      Update();
    }

    method DisableWriting()
      modifies this
      ensures Abs() == P.DisableWriting(old(Abs()))
    {
      events := events.(writing := false);
      Update();
    }

    method Remove()
      modifies this
      ensures Abs() == P.RemoveChannel(old(Abs()))
    {
      registeredEvents := P.NoEvents;
      if registered {
        poller := P.NotPolled;
        registered := false;
        registeredEvents := P.NoEvents;
      }
    }
  }

  class TcpConnection {
    const channel: Channel
    const output: Buffer
    var connected: bool
    var writing: bool
    ghost var wire: seq<Byte>

    ghost predicate Valid()
      reads this, output, output.pool
    {
      output.Valid()
    }

    ghost function Abs(): P.Conn
      requires Valid()
      reads this, channel, output, output.pool, output.Storage()
    {
      P.Conn(connected, writing, output.Contents(), channel.Abs(), wire)
    }

    constructor (pool: BufferPool)
      requires pool.Valid()
      modifies pool
      ensures Valid() && fresh(channel) && fresh(output) && output.pool == pool && P.Inv(Abs())
      ensures connected && !writing && wire == [] && output.Contents() == []
    {
      var c := new Channel();
      var b := new Buffer(pool, POOL_BLOCK);
      channel, output := c, b;
      connected, writing, wire := true, false, [];
      new;
      P.EnableReadingFacts(channel.Abs());
      channel.EnableReading();
    }

    /** write or writev: the kernel takes the first Took(n) of the bytes offered. */
    ghost method Kernel(offered: seq<Byte>, n: int)
      requires P.Took(n) <= |offered|
      modifies `wire
      ensures wire == old(wire) + offered[..P.Took(n)]
    {
      wire := wire + offered[..P.Took(n)];
    }

    /** What the kernel did not take waits for the next writable event. */
    method Queue(data: seq<Byte>)
      requires Valid()
      modifies this, channel, output, output.pool, output.Storage()
      ensures Valid() && fresh({output.Storage()} - {old(output.Storage())})
      ensures Abs() == P.Keep(old(Abs()), old(output.Contents()) + data)
    {
      output.Append(data);
      writing := true;
      channel.EnableWriting();
    }

    method StopIfEmpty()
      requires Valid()
      modifies this, channel
      ensures Valid() && Abs() == P.Settle(old(Abs()))
    {
      if output.ReadableBytes() == 0 {
        writing := false;
        channel.DisableWriting();
      }
    }

    /** n is what write or writev returns. */
    method SendInLoop(data: seq<Byte>, n: int)
      requires Valid() && P.Took(n) <= |output.Contents()| + |data|
      modifies this, channel, output, output.pool, output.Storage()
      ensures Valid() && Abs() == P.SendInLoop(old(Abs()), data, n, false)
    {
      var outLen := output.ReadableBytes();
      var written := if n < 0 then 0 else n;
      ghost var before := Abs();
      Kernel(output.Contents() + data, n);
      assert Abs() == before.(wire := before.wire + (before.output + data)[..P.Took(n)]);
      if !writing && outLen == 0 {
        assert output.Contents() + data == data;
        if written < |data| {
          Queue(data[written..]);
        }
      } else if written < outLen {
        output.Retrieve(written);
        Queue(data);
      } else {
        var consumedNew := written - outLen;
        if consumedNew < |data| {
          Queue(data[consumedNew..]);
        } else {
          StopIfEmpty();
        }
      }
    }

    method SendVecInLoop(data1: seq<Byte>, data2: seq<Byte>, n: int)
      requires Valid() && P.Took(n) <= |P.Offered(Abs(), data1, data2)|
      modifies this, channel, output, output.pool, output.Storage()
      ensures Valid() && Abs() == P.SendVecInLoop(old(Abs()), data1, data2, n, false)
    {
      ghost var before := Abs();
      var written := if n < 0 then 0 else n;
      Kernel(P.Offered(before, data1, data2), n);
      assert Abs() == before.(wire := before.wire + P.Offered(before, data1, data2)[..P.Took(n)]);
      AfterVec(data1, data2, written);
    }

    /** The branches after writev. */
    method AfterVec(data1: seq<Byte>, data2: seq<Byte>, written: nat)
      requires Valid()
      modifies this, channel, output, output.pool, output.Storage()
      ensures Valid() && Abs() == P.AfterVec(old(Abs()), data1, data2, written, false)
    {
      var outLen := output.ReadableBytes();
      if !writing && outLen == 0 {
        QueueRest(data1, data2, written);
      } else if written < outLen {
        output.Retrieve(written);
        QueueTwo(data1, data2);
      } else {
        QueueRest(data1, data2, written - outLen);
      }
    }

    /** Queue what is left of two parts of which taken bytes have been written. */
    method QueueRest(data1: seq<Byte>, data2: seq<Byte>, taken: nat)
      requires Valid()
      modifies this, channel, output, output.pool, output.Storage()
      ensures Valid()
      ensures Abs() ==
        var old_ := old(output.Contents());
        if taken < |data1| then P.Keep(old(Abs()), old_ + data1[taken..] + data2)
        else if taken - |data1| < |data2| then P.Keep(old(Abs()), old_ + data2[taken - |data1|..])
        else P.Settle(old(Abs()))
    {
      if taken < |data1| {
        QueueTwo(data1[taken..], data2);
      } else {
        var consumedBody := taken - |data1|;
        if consumedBody < |data2| {
          Queue(data2[consumedBody..]);
        } else {
          StopIfEmpty();
        }
      }
    }

    method QueueTwo(data1: seq<Byte>, data2: seq<Byte>)
      requires Valid()
      modifies this, channel, output, output.pool, output.Storage()
      ensures Valid()
      ensures Abs() == P.Keep(old(Abs()), old(output.Contents()) + data1 + data2)
    {
      output.Append(data1);
      Queue(data2);
    }

    method HandleClose()
      requires Valid()
      modifies this, channel
      ensures Valid() && Abs() == P.HandleClose(old(Abs()))
    {
      if !connected {
        return;
      }
      connected := false;
      channel.Remove();
      writing := false;
    }

    /** fatal: errno is neither EAGAIN, EWOULDBLOCK nor EINTR. */
    method HandleWrite(n: int, fatal: bool)
      requires Valid() && n <= |output.Contents()|
      modifies this, channel, output
      ensures Valid() && Abs() == P.HandleWrite(old(Abs()), n, fatal)
    {
      if !writing {
        return;
      }
      if n > 0 {
        Kernel(output.Contents(), n);
        output.Retrieve(n);
        StopIfEmpty();
      } else if n < 0 && fatal {
        HandleClose();
      }
    }
  }
}

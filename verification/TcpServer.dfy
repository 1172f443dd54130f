/** NewConnectionInLoop, RemoveConnection and the tasks they queue, of src/tcp_server.cc, as code for
    one I/O loop. */
module TcpServerCode {
  import opened TcpServerTable
  import P = SendPath

  ghost predicate Steps(run: seq<State>) {
    && |run| >= 1
    && forall k :: 0 < k < |run| ==> Next(run[k - 1], run[k])
  }

  ghost predicate Reaches(s: State, s': State) {
    exists run :: Steps(run) && run[0] == s && run[|run| - 1] == s'
  }

  /** What can happen at any point while the loop thread is busy. */
  ghost predicate AsideStep(s: State, s': State) {
    || (exists fd :: StepAccept(s, s', fd))
    || (exists c :: StepQueueSend(s, s', c))
    || (exists c, sent :: StepSendNow(s, s', c, sent))
  }

  ghost predicate AsideRun(run: seq<State>) {
    && |run| >= 1
    && forall k :: 0 < k < |run| ==> AsideStep(run[k - 1], run[k])
  }

  ghost predicate AsideReach(s: State, s': State) {
    exists run :: AsideRun(run) && run[0] == s && run[|run| - 1] == s'
  }

  lemma {:induction false} AsideRunFacts(run: seq<State>, k: nat)
    requires AsideRun(run) && Inv(run[0]) && k < |run|
    ensures Inv(run[k]) && run[k].phase == run[0].phase
  {
    if k > 0 {
      AsideRunFacts(run, k - 1);
      assert AsideStep(run[k - 1], run[k]);
      NextKeepsInv(run[k - 1], run[k]);
    }
  }

  /** Such steps keep the invariant and leave the loop thread where it is. */
  lemma AsideFacts(s: State, s': State)
    requires AsideReach(s, s') && Inv(s)
    ensures Inv(s') && s'.phase == s.phase && Reaches(s, s')
  {
    var run :| AsideRun(run) && run[0] == s && run[|run| - 1] == s';
    forall k | 0 < k < |run| ensures Next(run[k - 1], run[k]) {
      assert AsideStep(run[k - 1], run[k]);
    }
    assert Steps(run);
    AsideRunFacts(run, |run| - 1);
  }

  lemma ReachesTrans(s: State, m: State, s': State)
    requires Reaches(s, m) && Reaches(m, s')
    ensures Reaches(s, s')
  {
    var a :| Steps(a) && a[0] == s && a[|a| - 1] == m;
    var b :| Steps(b) && b[0] == m && b[|b| - 1] == s';
    var run := a + b[1..];
    forall k | 0 < k < |run| ensures Next(run[k - 1], run[k]) {
      if k < |a| {
        assert Next(a[k - 1], a[k]);
      } else {
        assert Next(b[k - |a|], b[k - |a| + 1]);
      }
    }
    assert Steps(run);
  }

  lemma ReachesStep(s: State, m: State, s': State)
    requires Reaches(s, m) && Next(m, s')
    ensures Reaches(s, s')
  {
    assert Steps([m, s']);
    ReachesTrans(s, m, s');
  }

  class IoLoop {
    var conns: map<Fd, Conn>       // loop_conns_.at(io)
    var fds: map<Conn, Fd>
    var next: Conn
    var connected: set<Conn>
    var polled: set<Conn>
    var pendingTasks: seq<Task>
    ghost var phase: Phase

    ghost function Abs(): State
      reads this
    {
      State(conns, fds, next, connected, polled, pendingTasks, phase)
    }

    constructor ()
      ensures Abs() == Initial && Inv(Abs())
    {
      conns, fds, next, connected, polled, pendingTasks := map[], map[], 0, {}, {}, [];
      phase := Polling;
    }

    /** The acceptor's hand-over of a descriptor the kernel has just given out. */
    method NewConnectionInLoop(fd: Fd)
      requires Inv(Abs()) && fd !in conns && New(fd) !in Abs().Todo()
      modifies this
      ensures StepAccept(old(Abs()), Abs(), fd) && Inv(Abs())
    {
      ghost var s := Abs();
      pendingTasks := pendingTasks + [New(fd)];
      QueueKeepsInv(s, Abs(), New(fd));
    }

    /** HandleClose of the connection whose event is being handled, with the RemoveConnection it calls;
        nothing the second time. */
    method HandleClose(c: Conn)
      requires Inv(Abs()) && phase.Handling? && phase.batch != [] && phase.batch[0] == c
      modifies this
      ensures if c in old(connected) then StepClose(old(Abs()), Abs()) else Abs() == old(Abs())
      ensures Inv(Abs()) && conns == old(conns) && fds == old(fds) && connected == old(connected) - {c}
      ensures c in old(connected) ==> polled == old(polled) - {c} && pendingTasks == old(pendingTasks) + [Remove(c)]
    {
      if c !in connected {
        return;
      }
      ghost var s := Abs();
      connected := connected - {c};
      polled := polled - {c};
      RemoveConnection(c);
      CloseKeepsInv(s, Abs());
    }

    method RemoveConnection(c: Conn)
      modifies `pendingTasks
      ensures pendingTasks == old(pendingTasks) + [Remove(c)]
    {
      pendingTasks := pendingTasks + [Remove(c)];
    }

    /** The body of the lambda queued by NewConnectionInLoop: emplace keeps an entry that is there. */
    method AddConnection(fd: Fd)
      modifies this
      ensures Abs() == RunTask(old(Abs()), New(fd))
    {
      var conn := next;
      next := next + 1;
      fds := fds[conn := fd];
      connected := connected + {conn};
      polled := polled + {conn};
      if fd !in conns {
        conns := conns[fd := conn];
      }
    }

    /** The body of the lambda queued by RemoveConnection: erase by descriptor. */
    method EraseConnection(c: Conn)
      requires c in fds
      modifies `conns
      ensures Abs() == RunTask(old(Abs()), Remove(c))
    {
      conns := conns - {fds[c]};
    }

    /** SendInLoop or SendVecInLoop, as far as the poller is concerned. */
    method SendInLoop(c: Conn, sent: P.Sent)
      modifies `polled
      ensures Abs() == Send(old(Abs()), c, sent)
    {
      if sent.Registers() {
        polled := polled + {c};
      }
    }

    method Run(task: Task)
      requires Inv(Abs()) && phase.RunningTasks? && phase.rest != [] && phase.rest[0] == task
      modifies this
      ensures StepTask(old(Abs()), Abs()) && Inv(Abs())
    {
      ghost var s := Abs();
      assert task in s.Todo();
      match task {
        case New(fd) => AddConnection(fd);
        case Remove(c) => EraseConnection(c);
        case SendLater(c, sent) => SendInLoop(c, sent);
      }
      phase := RunningTasks(s.phase.rest[1..]);
      TaskKeepsInv(s, Abs());
    }

    /** What happens meanwhile: the acceptor and other threads queue tasks, and user code run by a task
        sends. Callers know only the contract. */
    method Meanwhile()
      modifies this
      ensures AsideReach(old(Abs()), Abs())
    {
      assert AsideRun([Abs()]);
    }

    /** The swap, and then the tasks one after another, with queueing and sending at any point in
        between. When they have run, the table holds exactly the open connections. */
    method DoPendingTasks()
      requires Inv(Abs()) && phase == Handling([])
      modifies this
      ensures Inv(Abs()) && phase == Polling && Reaches(old(Abs()), Abs())
      ensures forall c :: c in fds ==> (c in connected <==> Abs().InTable(c))
    {
      ghost var start := Abs();
      Meanwhile();
      AsideFacts(start, Abs());
      ghost var s := Abs();
      var buffer := pendingTasks;
      pendingTasks := [];
      phase := RunningTasks(buffer);
      NextEventKeepsInv(s, Abs());
      ReachesStep(start, s, Abs());
      var i := 0;
      assert buffer[0..] == buffer;
      while i < |buffer|
        invariant i <= |buffer| && phase == RunningTasks(buffer[i..]) && Inv(Abs()) && Reaches(start, Abs())
      {
        s := Abs();
        Run(buffer[i]);
        assert buffer[i..][1..] == buffer[i + 1..];
        ReachesStep(start, s, Abs());
        s := Abs();
        Meanwhile();
        AsideFacts(s, Abs());
        ReachesTrans(start, s, Abs());
        i := i + 1;
      }
      s := Abs();
      phase := Polling;
      TaskKeepsInv(s, Abs());
      ReachesStep(start, s, Abs());
    }
  }
}

/** What becomes of the descriptors and connections of src/tcp_server.cc: every hand-over is built, open
    connections are polled, and each task and each close affects its own connection only. */
module TcpServerEffects {
  import opened TcpServerTable

  lemma NextKeepsOpenPolled(s: State, s': State)
    requires Next(s, s') && s.connected <= s.polled
    ensures s'.connected <= s'.polled
  {}

  lemma {:induction false} OpenArePolled(run: seq<State>, k: nat)
    requires Run(run) && k < |run|
    ensures run[k].connected <= run[k].polled
  {
    if k > 0 {
      OpenArePolled(run, k - 1);
      assert Next(run[k - 1], run[k]);
      NextKeepsOpenPolled(run[k - 1], run[k]);
    }
  }

  /** In every state of every run the poller holds the channel of every open connection, and it holds
      no other exactly when no late send has been executed. */
  lemma PolledExactlyOpenIff(run: seq<State>, k: nat)
    requires Run(run) && k < |run|
    ensures run[k].connected <= run[k].polled
    ensures run[k].polled == run[k].connected <==> NoLateSend(run, k)
  {
    OpenArePolled(run, k);
    PolledAreOpenIff(run, k);
  }

  // ---------------------------------------------------------------- hand-overs

  /** The descriptors that queued hand-overs bring, in order. */
  function Handovers(todo: seq<Task>): seq<Fd> {
    if todo == [] then []
    else Handovers(todo[..|todo| - 1]) + (if todo[|todo| - 1].New? then [todo[|todo| - 1].fd] else [])
  }

  /** The descriptor a step of the acceptor hands over. */
  ghost function AcceptedBy(s: State, s': State): seq<Fd> {
    if fd :| StepAccept(s, s', fd) then [fd] else []
  }

  ghost function Accepted(run: seq<State>, k: nat): seq<Fd>
    requires k < |run|
  {
    if k == 0 then [] else Accepted(run, k - 1) + AcceptedBy(run[k - 1], run[k])
  }

  /** Every connection ever built has a descriptor. */
  ghost predicate Numbered(s: State) {
    forall c: Conn :: c < s.next <==> c in s.fds
  }

  /** The descriptors of the connections ever built, oldest first. */
  ghost function Built(s: State): seq<Fd>
    requires Numbered(s)
  {
    seq(s.next, c requires 0 <= c < s.next => s.fds[c])
  }

  lemma {:induction false} HandoversSplit(a: seq<Task>, b: seq<Task>)
    ensures Handovers(a + b) == Handovers(a) + Handovers(b)
    decreases |b|
  {
    if b == [] {
      assert a + b == a;
    } else {
      assert (a + b)[..|a + b| - 1] == a + b[..|b| - 1];
      HandoversSplit(a, b[..|b| - 1]);
    }
  }

  lemma OneHandover(task: Task)
    ensures Handovers([task]) == if task.New? then [task.fd] else []
  {
    assert [task][..0] == [];
  }

  lemma AcceptMovesOn(s: State, s': State, fd: Fd)
    requires StepAccept(s, s', fd)
    ensures AcceptedBy(s, s') == [fd] && s'.Todo() == s.Todo() + [New(fd)]
  {
    assert forall x :: StepAccept(s, s', x) ==> x == fd by {
      forall x | StepAccept(s, s', x) ensures x == fd {
        assert s'.queue[|s.queue|] == New(x);
      }
    }
  }

  /** What is queued behind brings no hand-over unless the acceptor queued it. */
  lemma OtherStepsKeepHandovers(s: State, s': State)
    requires Next(s, s') && !StepTask(s, s') && !(exists fd :: StepAccept(s, s', fd))
    ensures s'.fds == s.fds && s'.next == s.next && Handovers(s'.Todo()) == Handovers(s.Todo())
  {
    if c :| StepQueueSend(s, s', c) {
      var sent :| s' == s.(queue := s.queue + [SendLater(c, sent)]);
      assert s'.Todo() == s.Todo() + [SendLater(c, sent)];
      HandoversSplit(s.Todo(), [SendLater(c, sent)]);
      OneHandover(SendLater(c, sent));
    } else if StepClose(s, s') {
      var c := s.phase.batch[0];
      HandoversSplit(s.Todo(), [Remove(c)]);
      OneHandover(Remove(c));
    } else if StepNextEvent(s, s') {
      assert s'.Todo() == s.Todo() by { assert s.queue + [] == s.queue; }
    }
  }

  lemma TaskBuilds(s: State, s': State, task: Task)
    requires Numbered(s) && s' == RunTask(s, task).(phase := s'.phase)
    ensures Numbered(s') && Built(s') == Built(s) + (if task.New? then [task.fd] else [])
  {
    if task.New? {
      assert s'.next == s.next + 1 && s'.fds == s.fds[s.next := task.fd];
    } else {
      assert s'.next == s.next && s'.fds == s.fds;
    }
  }

  lemma TaskLeaves(s: State, s': State)
    requires StepTask(s, s') && s.phase.rest != []
    ensures Handovers(s.Todo()) == (if s.phase.rest[0].New? then [s.phase.rest[0].fd] else []) + Handovers(s'.Todo())
  {
    var task := s.phase.rest[0];
    assert s'.queue == s.queue;
    assert s.Todo() == [task] + s'.Todo();
    HandoversSplit([task], s'.Todo());
    OneHandover(task);
  }

  lemma TaskMovesOn(s: State, s': State)
    requires StepTask(s, s') && Numbered(s)
    ensures Numbered(s') && Built(s') + Handovers(s'.Todo()) == Built(s) + Handovers(s.Todo())
  {
    if s.phase.rest == [] {
      assert [] + s.queue == s.queue;
      assert Built(s') == Built(s);
    } else {
      var task := s.phase.rest[0];
      TaskBuilds(s, s', task);
      TaskLeaves(s, s');
      Regrouped(Built(s), if task.New? then [task.fd] else [], Handovers(s'.Todo()));
    }
  }

  lemma Regrouped(a: seq<Fd>, b: seq<Fd>, c: seq<Fd>)
    ensures a + b + c == a + (b + c)
  {}

  lemma StepMovesOn(s: State, s': State, all: seq<Fd>)
    requires Next(s, s') && Numbered(s) && all == Built(s) + Handovers(s.Todo())
    ensures Numbered(s') && all + AcceptedBy(s, s') == Built(s') + Handovers(s'.Todo())
  {
    if fd :| StepAccept(s, s', fd) {
      AcceptMovesOn(s, s', fd);
      HandoversSplit(s.Todo(), [New(fd)]);
      OneHandover(New(fd));
      Regrouped(Built(s), Handovers(s.Todo()), [fd]);
      assert Built(s') == Built(s);
    } else {
      assert all + [] == all;
      if StepTask(s, s') {
        TaskMovesOn(s, s');
      } else {
        OtherStepsKeepHandovers(s, s');
        assert Built(s') == Built(s);
      }
    }
  }

  /** Every descriptor the acceptor hands over becomes one connection, in the order of the hand-overs:
      those built so far and those still queued are all there ever were. */
  lemma {:induction false} HandoversBecomeConnections(run: seq<State>, k: nat)
    requires Run(run) && k < |run|
    ensures Numbered(run[k]) && Accepted(run, k) == Built(run[k]) + Handovers(run[k].Todo())
  {
    if k == 0 {
      assert run[0] == Initial && Initial.fds == map[] && Initial.next == 0 && Initial.Todo() == [];
      assert Numbered(Initial) && Built(Initial) == [];
    } else {
      HandoversBecomeConnections(run, k - 1);
      assert Next(run[k - 1], run[k]);
      StepMovesOn(run[k - 1], run[k], Accepted(run, k - 1));
    }
  }

  /** A connection that closes is closed and out of the poller at once, and its removal from the table is
      queued behind everything else; no other connection is affected. */
  lemma CloseEffects(s: State, s': State, d: Conn)
    requires StepClose(s, s')
    ensures var c := s.phase.batch[0];
      && c in s.connected && c !in s'.connected && c !in s'.polled && s'.Todo() == s.Todo() + [Remove(c)]
      && (d != c ==> (d in s'.connected <==> d in s.connected) && (d in s'.polled <==> d in s.polled))
      && (s'.InTable(d) <==> s.InTable(d))
  {}

  /** What a task that has run leaves behind: a hand-over a connection that is open, polled and in the
      table; a removal a connection in no table; either way no other connection is affected. */
  lemma TaskEffects(s: State, s': State, task: Task, d: Conn)
    requires Inv(s) && StepTask(s, s') && s.phase.rest != [] && s.phase.rest[0] == task
    ensures task.New? ==> var c := s.next;
      s'.InTable(c) && s'.fds[c] == task.fd && c in s'.connected && c in s'.polled
    ensures task.Remove? ==> !s'.InTable(task.conn)
    ensures d in s.fds && (task.Remove? ==> d != task.conn) ==>
      d in s'.fds && s'.fds[d] == s.fds[d] && (s'.InTable(d) <==> s.InTable(d))
    ensures d in s.fds ==> (d in s'.connected <==> d in s.connected)
  {
    HeadLeaves(s, s.phase.rest[1..], s.phase.rest[1..] + s.queue);
    assert task in s.Todo();
    assert s.next !in s.fds;
    if task.New? {
      assert task.fd !in s.table;
    }
  }
}

/** The connection table of src/tcp_server.cc for one I/O loop, with the life of its connections as
    src/tcp_connection.cc and src/event_loop.cc lead it: a connection is registered with the poller
    when it is built, unregistered when it closes, and leaves the table in a queued task. */
module TcpServerTable {
  import P = SendPath

  type Fd = nat
  type Conn = nat

  datatype Task =
    | New(fd: Fd)                          // NewConnectionInLoop's lambda
    | Remove(conn: Conn)                   // RemoveConnection's lambda
    | SendLater(conn: Conn, sent: P.Sent)  // a send queued by another thread, and how it will go

  datatype Phase =
    | Polling
    | Handling(batch: seq<Conn>)   // events of the last poll still to be handled
    | RunningTasks(rest: seq<Task>)

  /** fds gives the descriptor of every connection ever built, connected those not closed yet,
      polled those whose channel the poller holds. */
  datatype State = State(
    table: map<Fd, Conn>,
    fds: map<Conn, Fd>,
    next: Conn,
    connected: set<Conn>,
    polled: set<Conn>,
    queue: seq<Task>,
    phase: Phase
  ) {
    function Todo(): seq<Task> {
      if phase.RunningTasks? then phase.rest + queue else queue
    }

    predicate InTable(c: Conn) {
      c in fds && fds[c] in table && table[fds[c]] == c
    }
  }

  const Initial: State := State(map[], map[], 0, {}, {}, [], Polling)

  /** The acceptor hands over a descriptor that no connection of the table and no earlier hand-over
      holds: the kernel gives out only closed ones. */
  ghost predicate StepAccept(s: State, s': State, fd: Fd) {
    && fd !in s.table && New(fd) !in s.Todo()
    && s' == s.(queue := s.queue + [New(fd)])
  }

  ghost predicate StepQueueSend(s: State, s': State, c: Conn) {
    c in s.fds && exists sent :: s' == s.(queue := s.queue + [SendLater(c, sent)])
  }

  /** Sending ignores the state of the connection: a send that asks the channel for an update registers
      it if it was not. */
  function Send(s: State, c: Conn, sent: P.Sent): State {
    if sent.Registers() then s.(polled := s.polled + {c}) else s
  }

  ghost predicate StepPoll(s: State, s': State) {
    && s.phase == Polling
    && exists batch: seq<Conn> :: (forall c :: c in batch ==> c in s.polled) && s' == s.(phase := Handling(batch))
  }

  /** User code that the loop thread runs, for an event, a timer or a task, may send on any connection
      it knows. */
  ghost predicate StepSendNow(s: State, s': State, c: Conn, sent: P.Sent) {
    s.phase != Polling && c in s.fds && s' == Send(s, c, sent)
  }

  /** HandleClose for the connection whose event is being handled; nothing else calls it. */
  ghost predicate StepClose(s: State, s': State) {
    && s.phase.Handling? && s.phase.batch != [] && s.phase.batch[0] in s.connected
    && var c := s.phase.batch[0];
    s' == s.(connected := s.connected - {c}, polled := s.polled - {c}, queue := s.queue + [Remove(c)])
  }

  ghost predicate StepNextEvent(s: State, s': State) {
    && s.phase.Handling?
    && s' == if s.phase.batch != [] then s.(phase := Handling(s.phase.batch[1..]))
             else s.(phase := RunningTasks(s.queue), queue := [])
  }

  function RunTask(s: State, task: Task): State {
    match task
    case New(fd) =>
      var c := s.next;
      s.(next := c + 1, fds := s.fds[c := fd], connected := s.connected + {c}, polled := s.polled + {c},
         table := if fd in s.table then s.table else s.table[fd := c])
    case Remove(c) => if c in s.fds then s.(table := s.table - {s.fds[c]}) else s
    case SendLater(c, sent) => Send(s, c, sent)
  }

  ghost predicate StepTask(s: State, s': State) {
    && s.phase.RunningTasks?
    && s' == if s.phase.rest == [] then s.(phase := Polling)
             else RunTask(s, s.phase.rest[0]).(phase := RunningTasks(s.phase.rest[1..]))
  }

  ghost predicate Next(s: State, s': State) {
    || (exists fd :: StepAccept(s, s', fd))
    || (exists c :: StepQueueSend(s, s', c))
    || (exists c, sent :: StepSendNow(s, s', c, sent))
    || StepPoll(s, s') || StepClose(s, s') || StepNextEvent(s, s') || StepTask(s, s')
  }

  ghost predicate Run(run: seq<State>) {
    && |run| >= 1 && run[0] == Initial
    && forall k :: 0 < k < |run| ==> Next(run[k - 1], run[k])
  }

  ghost predicate Reachable(s: State) {
    exists run :: Run(run) && run[|run| - 1] == s
  }

  // ---------------------------------------------------------------- invariant

  ghost predicate NoDup(l: seq<Task>) {
    forall i, j :: 0 <= i < j < |l| && (l[i].New? || l[i].Remove?) ==> l[i] != l[j]
  }

  /** Open connections are in the table under their own descriptor; closed ones are there exactly
      while their removal is queued; queued hand-overs bring descriptors the table does not hold. */
  ghost predicate Inv(s: State) {
    && (forall fd :: fd in s.table ==> s.table[fd] in s.fds && s.fds[s.table[fd]] == fd)
    && (forall c :: c in s.fds ==> c < s.next)
    && s.connected <= s.fds.Keys && s.polled <= s.fds.Keys
    && (forall c :: c in s.connected ==> s.InTable(c))
    && (forall c :: c in s.fds && c !in s.connected ==> (s.InTable(c) <==> Remove(c) in s.Todo()))
    && (forall c :: Remove(c) in s.Todo() ==> c in s.fds && c !in s.connected)
    && (forall c, l :: SendLater(c, l) in s.Todo() ==> c in s.fds)
    && (forall fd :: New(fd) in s.Todo() ==> fd !in s.table)
    && NoDup(s.Todo())
    && (s.phase.Polling? ==> forall c :: Remove(c) !in s.queue)
    && (s.phase.RunningTasks? ==> forall c :: Remove(c) !in s.queue)
    && (s.phase.Handling? ==> forall c :: c in s.phase.batch ==> c in s.fds)
  }

  lemma QueueKeepsInv(s: State, s': State, task: Task)
    requires Inv(s) && s' == s.(queue := s.queue + [task])
    requires task.New? ==> task.fd !in s.table && task !in s.Todo()
    requires task.SendLater? ==> task.conn in s.fds
    requires !task.Remove?
    ensures Inv(s')
  {
    assert s'.Todo() == s.Todo() + [task];
    assert forall t :: t in s'.Todo() <==> t in s.Todo() || t == task;
    NoDupAppend(s.Todo(), task);
  }

  lemma NoDupAppend(l: seq<Task>, task: Task)
    requires NoDup(l) && ((task.New? || task.Remove?) ==> task !in l)
    ensures NoDup(l + [task])
  {}

  lemma CloseKeepsInv(s: State, s': State)
    requires Inv(s) && StepClose(s, s')
    ensures Inv(s')
  {
    var c := s.phase.batch[0];
    assert s'.Todo() == s.Todo() + [Remove(c)];
    assert forall t :: t in s'.Todo() <==> t in s.Todo() || t == Remove(c);
    assert Remove(c) !in s.Todo();
    forall d | d in s'.fds && d !in s'.connected ensures s'.InTable(d) <==> Remove(d) in s'.Todo() {
      if d != c {
        assert s.InTable(d) <==> Remove(d) in s.Todo();
      }
    }
  }

  /** The task at the head of the list is no longer to do once it has run. */
  lemma HeadLeaves(s: State, rest: seq<Task>, todo: seq<Task>)
    requires s.phase.RunningTasks? && s.phase.rest != [] && rest == s.phase.rest[1..]
    requires todo == rest + s.queue && NoDup(s.Todo())
    ensures s.Todo() == [s.phase.rest[0]] + todo && NoDup(todo)
    ensures forall t :: t in s.Todo() <==> t in todo || t == s.phase.rest[0]
    ensures s.phase.rest[0].New? || s.phase.rest[0].Remove? ==> s.phase.rest[0] !in todo
  {
    var all := s.Todo();
    assert s.phase.rest == [s.phase.rest[0]] + rest;
    assert all == [s.phase.rest[0]] + todo;
    forall i, j | 0 <= i < j < |todo| && (todo[i].New? || todo[i].Remove?) ensures todo[i] != todo[j] {
      assert all[i + 1] == todo[i] && all[j + 1] == todo[j];
    }
    forall j | 0 <= j < |todo| && (all[0].New? || all[0].Remove?) ensures todo[j] != all[0] {
      assert all[j + 1] == todo[j];
    }
  }

  lemma TaskKeepsInv(s: State, s': State)
    requires Inv(s) && StepTask(s, s')
    ensures Inv(s')
  {
    if s.phase.rest == [] {
      assert s.Todo() == s.queue == s'.Todo() by { assert [] + s.queue == s.queue; }
    } else {
      var task, rest := s.phase.rest[0], s.phase.rest[1..];
      HeadLeaves(s, rest, rest + s.queue);
      assert s'.Todo() == rest + s.queue;
      match task {
        case New(fd) => NewKeepsInv(s, s', fd);
        case Remove(c) => RemoveKeepsInv(s, s', c);
        case SendLater(c, sent) => LaterKeepsInv(s, s', c, sent);
      }
    }
  }

  lemma LaterKeepsInv(s: State, s': State, c: Conn, sent: P.Sent)
    requires Inv(s) && s.phase.RunningTasks? && s.phase.rest != [] && s.phase.rest[0] == SendLater(c, sent)
    requires s' == RunTask(s, SendLater(c, sent)).(phase := RunningTasks(s.phase.rest[1..]))
    ensures Inv(s')
  {
    HeadLeaves(s, s.phase.rest[1..], s.phase.rest[1..] + s.queue);
    assert SendLater(c, sent) in s.Todo();
    forall d | d in s'.fds && d !in s'.connected ensures s'.InTable(d) <==> Remove(d) in s'.Todo() {
      assert s.InTable(d) <==> Remove(d) in s.Todo();
    }
  }

  lemma NewKeepsInv(s: State, s': State, fd: Fd)
    requires Inv(s) && s.phase.RunningTasks? && s.phase.rest != [] && s.phase.rest[0] == New(fd)
    requires s' == RunTask(s, New(fd)).(phase := RunningTasks(s.phase.rest[1..]))
    ensures Inv(s')
  {
    HeadLeaves(s, s.phase.rest[1..], s.phase.rest[1..] + s.queue);
    var c := s.next;
    assert New(fd) in s.Todo();
    assert fd !in s.table && c !in s.fds;
    NewTable(s, s', fd);
    assert Remove(c) !in s.Todo();
    forall d | d in s'.fds && d !in s'.connected ensures s'.InTable(d) <==> Remove(d) in s'.Todo() {
      assert s.InTable(d) <==> Remove(d) in s.Todo();
    }
  }

  /** A new connection adds its own entry and leaves the others. */
  lemma NewTable(s: State, s': State, fd: Fd)
    requires fd !in s.table && s.next !in s.fds
    requires forall x :: x in s.table ==> s.table[x] in s.fds && s.fds[s.table[x]] == x
    requires s' == RunTask(s, New(fd)).(phase := s'.phase)
    ensures s'.InTable(s.next) && forall d :: d in s.fds ==> (s'.InTable(d) <==> s.InTable(d))
    ensures forall x :: x in s'.table ==> s'.table[x] in s'.fds && s'.fds[s'.table[x]] == x
  {}

  lemma RemoveKeepsInv(s: State, s': State, c: Conn)
    requires Inv(s) && s.phase.RunningTasks? && s.phase.rest != [] && s.phase.rest[0] == Remove(c)
    requires s' == RunTask(s, Remove(c)).(phase := RunningTasks(s.phase.rest[1..]))
    ensures Inv(s')
  {
    HeadLeaves(s, s.phase.rest[1..], s.phase.rest[1..] + s.queue);
    assert Remove(c) in s.Todo() && s.InTable(c);
    forall d | d in s.fds && d != c ensures s'.InTable(d) <==> s.InTable(d) {}
    forall d | d in s'.fds && d !in s'.connected ensures s'.InTable(d) <==> Remove(d) in s'.Todo() {
      assert s.InTable(d) <==> Remove(d) in s.Todo();
    }
  }

  lemma NextKeepsInv(s: State, s': State)
    requires Inv(s) && Next(s, s')
    ensures Inv(s')
  {
    if StepTask(s, s') {
      TaskKeepsInv(s, s');
    } else if StepClose(s, s') {
      CloseKeepsInv(s, s');
    } else if StepNextEvent(s, s') {
      NextEventKeepsInv(s, s');
    } else if exists fd :: StepAccept(s, s', fd) {
      var fd :| StepAccept(s, s', fd);
      QueueKeepsInv(s, s', New(fd));
    } else if exists c :: StepQueueSend(s, s', c) {
      var c :| StepQueueSend(s, s', c);
      var l :| s' == s.(queue := s.queue + [SendLater(c, l)]);
      QueueKeepsInv(s, s', SendLater(c, l));
    } else {
      PollOrSendKeepsInv(s, s');
    }
  }

  lemma NextEventKeepsInv(s: State, s': State)
    requires Inv(s) && StepNextEvent(s, s')
    ensures Inv(s')
  {
    assert s'.Todo() == s.Todo() by { assert s.queue + [] == s.queue; }
  }

  lemma PollOrSendKeepsInv(s: State, s': State)
    requires Inv(s) && (StepPoll(s, s') || exists c, sent :: StepSendNow(s, s', c, sent))
    ensures Inv(s')
  {
    assert s'.Todo() == s.Todo();
  }

  lemma {:induction false} RunKeepsInv(run: seq<State>, k: nat)
    requires Run(run) && k < |run|
    ensures Inv(run[k])
  {
    if k > 0 {
      RunKeepsInv(run, k - 1);
      assert Next(run[k - 1], run[k]);
      NextKeepsInv(run[k - 1], run[k]);
    }
  }

  /** Table entries change only while queued tasks run. */
  lemma TableKeptWhileHandling(s: State, s': State)
    requires Next(s, s') && !s.phase.RunningTasks?
    ensures s'.table == s.table && s'.fds == s.fds
  {}

  // ---------------------------------------------------------------- sending after the close

  /** The step executes a send, now or from the queue, on a connection that is no longer connected, and
      the send asks its channel for an update. A caller that looks at IsConnected first avoids it. */
  ghost predicate LateSend(s: State, s': State) {
    || (exists c, sent :: StepSendNow(s, s', c, sent) && c !in s.connected && sent.Registers())
    || (StepTask(s, s') && s.phase.rest != [] && s.phase.rest[0].SendLater?
        && s.phase.rest[0].conn !in s.connected && s.phase.rest[0].sent.Registers())
  }

  /** No step of the first k is a late send. */
  ghost predicate NoLateSend(run: seq<State>, k: nat)
    requires k < |run|
  {
    forall j :: 0 < j <= k ==> !LateSend(run[j - 1], run[j])
  }

  lemma OneStepPolled(s: State, s': State)
    requires Inv(s) && Next(s, s')
    ensures s'.polled <= s'.connected <==> s.polled <= s.connected && !LateSend(s, s')
  {
    if LateSend(s, s') {
      LateSendShows(s, s');
    } else if s.polled <= s.connected {
      TimelyStepKeeps(s, s');
    } else {
      StrayStays(s, s');
    }
  }

  lemma LateSendShows(s: State, s': State)
    requires LateSend(s, s')
    ensures !(s'.polled <= s'.connected)
  {
    if c, sent :| StepSendNow(s, s', c, sent) && c !in s.connected && sent.Registers() {
      assert c in s'.polled;
    } else {
      assert s.phase.rest[0].conn in s'.polled;
    }
  }

  lemma TimelyStepKeeps(s: State, s': State)
    requires Next(s, s') && !LateSend(s, s') && s.polled <= s.connected
    ensures s'.polled <= s'.connected
  {
    if c, sent :| StepSendNow(s, s', c, sent) {
      assert sent.Registers() ==> c in s.connected;
    }
  }

  /** A channel of a closed connection that is back in the poller stays there. */
  lemma StrayStays(s: State, s': State)
    requires Inv(s) && Next(s, s') && !(s.polled <= s.connected)
    ensures !(s'.polled <= s'.connected)
  {
    var c :| c in s.polled && c !in s.connected;
    assert c in s'.polled && c !in s'.connected;
  }

  /** In every state of every run: the poller holds channels of open connections only, exactly when no
      late send has been executed. The first one breaks it, and nothing repairs it. */
  lemma {:induction false} PolledAreOpenIff(run: seq<State>, k: nat)
    requires Run(run) && k < |run|
    ensures run[k].polled <= run[k].connected <==> NoLateSend(run, k)
  {
    if k == 0 {
      assert run[0] == Initial;
    } else {
      PolledAreOpenIff(run, k - 1);
      RunKeepsInv(run, k - 1);
      assert Next(run[k - 1], run[k]);
      OneStepPolled(run[k - 1], run[k]);
      assert NoLateSend(run, k) <==> NoLateSend(run, k - 1) && !LateSend(run[k - 1], run[k]);
    }
  }

  // ---------------------------------------------------------------- what the table promises

  /** Between two batches the table holds exactly the open connections. */
  lemma TableIsOpenConnections(s: State, c: Conn)
    requires Inv(s) && s.phase == Polling && c in s.fds
    ensures s.InTable(c) <==> c in s.connected
  {}

  /** When the loop polls, every channel the poller holds belongs to a connection of the table, under
      its own descriptor, exactly when no late send has been executed so far. */
  lemma PolledAreInTableIff(run: seq<State>, k: nat)
    requires Run(run) && k < |run| && run[k].phase == Polling
    ensures (forall c :: c in run[k].polled ==> run[k].InTable(c)) <==> NoLateSend(run, k)
  {
    var s := run[k];
    RunKeepsInv(run, k);
    PolledAreOpenIff(run, k);
    forall c | c in s.polled ensures s.InTable(c) <==> c in s.connected {
      TableIsOpenConnections(s, c);
    }
  }

  /** Every event still to be handled is for a connection the table holds. */
  ghost predicate BatchHeld(s: State) {
    s.phase.Handling? ==> forall c :: c in s.phase.batch ==> s.InTable(c)
  }

  /** Without late sends the events of a batch reach only connections that the table still holds,
      although some of them may have closed since the poll. */
  lemma {:induction false} EventsReachHeldConnections(run: seq<State>, k: nat)
    requires Run(run) && k < |run| && NoLateSend(run, k)
    ensures BatchHeld(run[k])
  {
    if k == 0 {
      assert run[0] == Initial;
    } else {
      assert NoLateSend(run, k - 1);
      EventsReachHeldConnections(run, k - 1);
      assert Next(run[k - 1], run[k]);
      RunKeepsInv(run, k - 1);
      PolledAreOpenIff(run, k - 1);
      BatchStaysHeld(run[k - 1], run[k]);
    }
  }

  /** Where an event still to be handled comes from. */
  lemma BatchSource(s: State, s': State, c: Conn)
    requires Next(s, s') && s'.phase.Handling? && c in s'.phase.batch
    ensures (s.phase.Polling? && c in s.polled) || (s.phase.Handling? && c in s.phase.batch)
  {}

  lemma BatchStaysHeld(s: State, s': State)
    requires Next(s, s') && Inv(s) && s.polled <= s.connected && BatchHeld(s)
    ensures BatchHeld(s')
  {
    if s'.phase.Handling? {
      forall c | c in s'.phase.batch ensures s'.InTable(c) {
        BatchSource(s, s', c);
        TableKeptWhileHandling(s, s');
        assert s.InTable(c);
      }
    }
  }

  /** The condition cannot be done without: after a late send, the next poll can hand out an event for
      a connection the table no longer holds. */
  lemma NextPollReachesHeldIff(run: seq<State>, k: nat)
    requires Run(run) && k < |run| && run[k].phase == Polling
    ensures (forall s' :: StepPoll(run[k], s') ==> BatchHeld(s')) <==> NoLateSend(run, k)
  {
    var s := run[k];
    PolledAreInTableIff(run, k);
    if c :| c in s.polled && !s.InTable(c) {
      var batch := [c];
      var s' := s.(phase := Handling(batch));
      assert forall d :: d in batch ==> d in s.polled;
      assert StepPoll(s, s');
      assert c in s'.phase.batch && !s'.InTable(c);
    }
  }

  lemma Extend(run: seq<State>, s': State) returns (longer: seq<State>)
    requires Run(run) && Next(run[|run| - 1], s')
    ensures Run(longer) && |longer| == |run| + 1 && longer[|run|] == s' && longer[..|run|] == run
  {
    longer := run + [s'];
    forall k | 0 < k < |longer| ensures Next(longer[k - 1], longer[k]) {
      if k < |run| {
        assert Next(run[k - 1], run[k]);
      }
    }
  }

  /** A connection arrives on descriptor fd and is entered. */
  lemma OneConnection(fd: Fd) returns (run: seq<State>)
    ensures Run(run)
    ensures run[|run| - 1] == State(map[fd := 0], map[0 := fd], 1, {0}, {0}, [], Polling)
  {
    run := [Initial];
    var a := Initial.(queue := [New(fd)]);
    assert StepAccept(Initial, a, fd);
    run := Extend(run, a);
    var b := a.(phase := Handling([]));
    assert forall c :: c in [] ==> c in a.polled;
    assert StepPoll(a, b);
    run := Extend(run, b);
    var d := b.(phase := RunningTasks([New(fd)]), queue := []);
    assert StepNextEvent(b, d);
    run := Extend(run, d);
    var e := RunTask(d, New(fd)).(phase := RunningTasks([]));
    assert [New(fd)][1..] == [];
    assert StepTask(d, e);
    run := Extend(run, e);
    assert StepTask(e, e.(phase := Polling));
    run := Extend(run, e.(phase := Polling));
  }

  /** A run from the start: the connection gets an event and closes, another thread queues a vector
      send on it, the kernel takes everything, and the loop is back at the poll: the channel is in the
      poller and the connection is in no table. */
  lemma LateSendStrandsAChannel(fd: Fd) returns (run: seq<State>)
    ensures Run(run)
    ensures var s := run[|run| - 1];
      s.phase == Polling && 0 in s.polled && !s.InTable(0) && s.table == map[]
  {
    var sent := P.Sent(true, true, false);
    run := OneConnection(fd);
    var s := run[|run| - 1];
    var a := s.(phase := Handling([0]));
    assert forall c :: c in [0] ==> c in s.polled;
    assert StepPoll(s, a);
    run := Extend(run, a);
    var b := a.(connected := {}, polled := {}, queue := [Remove(0)]);
    assert StepClose(a, b);
    run := Extend(run, b);
    var d := b.(queue := [Remove(0), SendLater(0, sent)]);
    assert StepQueueSend(b, d, 0);
    run := Extend(run, d);
    var e := d.(phase := Handling([]));
    assert StepNextEvent(d, e);
    run := Extend(run, e);
    var f := e.(phase := RunningTasks([Remove(0), SendLater(0, sent)]), queue := []);
    assert StepNextEvent(e, f);
    run := Extend(run, f);
    run := StrandedTail(run, f, sent);
  }

  lemma StrandedTail(before: seq<State>, f: State, sent: P.Sent) returns (run: seq<State>)
    requires Run(before) && before[|before| - 1] == f && sent.Registers()
    requires f.phase == RunningTasks([Remove(0), SendLater(0, sent)]) && 0 in f.fds
    requires f.table == map[f.fds[0] := 0]
    ensures Run(run)
    ensures var s := run[|run| - 1];
      s.phase == Polling && 0 in s.polled && !s.InTable(0) && s.table == map[]
  {
    assert f.phase.rest[1..] == [SendLater(0, sent)] && f.phase.rest[1..][1..] == [];
    var g := RunTask(f, Remove(0)).(phase := RunningTasks([SendLater(0, sent)]));
    assert StepTask(f, g);
    run := Extend(before, g);
    var h := RunTask(g, SendLater(0, sent)).(phase := RunningTasks([]));
    assert StepTask(g, h);
    run := Extend(run, h);
    assert StepTask(h, h.(phase := Polling));
    run := Extend(run, h.(phase := Polling));
  }
}

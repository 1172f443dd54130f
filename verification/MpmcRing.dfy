/** The bounded multi-producer, multi-consumer ring of src/logging.cc as a transition system.

    Any number of threads run push and pop. Each atomic access of the C++ code (load of a
    position, load of a cell's sequence, compare-exchange, move of the line, store of the
    sequence) is one step, and steps of different threads interleave freely. Tickets are
    natural numbers. */
module MpmcRing {
  import opened Prelude

  type Line = string

  datatype Cell = Cell(sequence: nat, data: Option<Line>)

  datatype Taken = Taken(pos: nat, out: Line)

  /** Where a thread stands inside push or pop; the name says what it does next. */
  datatype Pc =
    | Idle
    | PushLoad(arg: Line)                       // load enqueue_pos_
    | PushRead(arg: Line, pos: nat)             // load the cell's sequence
    | PushTest(arg: Line, pos: nat, seen: nat)  // compare, then CAS, give up or reload
    | PushMove(arg: Line, pos: nat)             // the CAS succeeded; move the line in
    | PushStore(arg: Line, pos: nat)            // publish by storing pos + 1
    | PushDone(arg: Line, ticket: Option<nat>)  // returned true with this ticket, or false
    | PopLoad
    | PopRead(pos: nat)
    | PopTest(pos: nat, seen: nat)
    | PopMove(pos: nat)
    | PopStore(pos: nat, out: Line)
    | PopDone(taken: Option<Taken>)             // returned true with this line, or false

  /** line is the caller's std::string in a push; None once it has been moved from. looks counts the
      loads of a cell's sequence the thread has made. */
  datatype Thread = Thread(pc: Pc, line: Option<Line>, looks: nat)

  /** The shared ring, the threads, and two histories indexed by ticket: the line each
      claimed push ticket carries, and the line each claimed pop ticket has taken so far. */
  datatype State = State(
    cells: seq<Cell>,
    enq: nat,
    deq: nat,
    threads: seq<Thread>,
    pushed: seq<Line>,
    popped: seq<Option<Line>>
  ) {
    ghost predicate Shape() {
      |cells| >= 1 && |pushed| == enq && |popped| == deq
    }

    function At(p: nat): Cell
      requires |cells| >= 1
    {
      cells[p % |cells|]
    }

    ghost predicate OwnsPush(t: nat, p: nat) {
      t < |threads| && (threads[t].pc.PushMove? || threads[t].pc.PushStore?) && threads[t].pc.pos == p
    }

    ghost predicate OwnsPop(t: nat, p: nat) {
      t < |threads| && (threads[t].pc.PopMove? || threads[t].pc.PopStore?) && threads[t].pc.pos == p
    }

    /** Ticket p has not been released by its pop. */
    ghost predicate Unreleased(p: nat) {
      p >= deq || exists t :: OwnsPop(t, p)
    }

    /** Ticket p has not been published by its push. */
    ghost predicate Unpublished(p: nat) {
      p >= enq || exists t :: OwnsPush(t, p)
    }

    /** The next push ticket needs a cell that its previous user has not given back. */
    ghost predicate Full() {
      enq >= |cells| && Unreleased(enq - |cells|)
    }

    ghost predicate Empty() {
      Unpublished(deq)
    }

    function Set(t: nat, pc: Pc): State
      requires t < |threads|
    {
      this.(threads := threads[t := threads[t].(pc := pc)])
    }

    /** Thread t has loaded a sequence. */
    function Look(t: nat, pc: Pc): State
      requires t < |threads|
    {
      this.(threads := threads[t := threads[t].(pc := pc, looks := threads[t].looks + 1)])
    }

    function SetCell(p: nat, c: Cell): State
      requires |cells| >= 1
    {
      this.(cells := cells[p % |cells| := c])
    }
  }

  // ---------------------------------------------------------------- construction

  ghost predicate Init(s: State) {
    && |s.cells| >= 1
    && (forall i {:trigger s.cells[i]} :: 0 <= i < |s.cells| ==> s.cells[i] == Cell(i, None))
    && s.enq == 0 && s.deq == 0
    && s.pushed == [] && s.popped == []
    && (forall t {:trigger s.threads[t]} :: 0 <= t < |s.threads| ==> s.threads[t].pc == Idle)
  }

  // ---------------------------------------------------------------- steps of one thread

  ghost predicate StepCall(s: State, s': State, t: nat)
    requires t < |s.threads|
  {
    && (s.threads[t].pc.Idle? || s.threads[t].pc.PushDone? || s.threads[t].pc.PopDone?)
    && (|| s' == s.Set(t, PopLoad)
        || exists v :: s' == s.(threads := s.threads[t := s.threads[t].(pc := PushLoad(v), line := Some(v))]))
  }

  ghost predicate StepLoad(s: State, s': State, t: nat)
    requires t < |s.threads|
  {
    match s.threads[t].pc
    case PushLoad(v) => s' == s.Set(t, PushRead(v, s.enq))
    case PopLoad => s' == s.Set(t, PopRead(s.deq))
    case _ => false
  }

  ghost predicate StepRead(s: State, s': State, t: nat)
    requires t < |s.threads| && |s.cells| >= 1
  {
    match s.threads[t].pc
    case PushRead(v, pos) => s' == s.Look(t, PushTest(v, pos, s.At(pos).sequence))
    case PopRead(pos) => s' == s.Look(t, PopTest(pos, s.At(pos).sequence))
    case _ => false
  }

  /** The branches that touch nothing shared: give up on diff < 0, reload on diff > 0, and a
      compare-exchange that fails, spuriously or not, which leaves the current position in pos. */
  ghost predicate StepRetry(s: State, s': State, t: nat)
    requires t < |s.threads|
  {
    match s.threads[t].pc
    case PushTest(v, pos, seen) =>
      if seen < pos then s' == s.Set(t, PushDone(v, None))
      else if seen > pos then s' == s.Set(t, PushLoad(v))
      else s' == s.Set(t, PushRead(v, s.enq))
    case PopTest(pos, seen) =>
      if seen < pos + 1 then s' == s.Set(t, PopDone(None))
      else if seen > pos + 1 then s' == s.Set(t, PopLoad)
      else s' == s.Set(t, PopRead(s.deq))
    case _ => false
  }

  ghost predicate StepClaimPush(s: State, s': State, t: nat)
    requires t < |s.threads|
  {
    match s.threads[t].pc
    case PushTest(v, pos, seen) =>
      && seen == pos && s.enq == pos
      && s' == s.Set(t, PushMove(v, pos)).(enq := pos + 1, pushed := s.pushed + [v])
    case _ => false
  }

  ghost predicate StepClaimPop(s: State, s': State, t: nat)
    requires t < |s.threads|
  {
    match s.threads[t].pc
    case PopTest(pos, seen) =>
      && seen == pos + 1 && s.deq == pos
      && s' == s.Set(t, PopMove(pos)).(deq := pos + 1, popped := s.popped + [None])
    case _ => false
  }

  ghost predicate StepMove(s: State, s': State, t: nat)
    requires t < |s.threads| && |s.cells| >= 1
  {
    match s.threads[t].pc
    case PushMove(v, pos) =>
      s' == s.SetCell(pos, s.At(pos).(data := s.threads[t].line))
             .(threads := s.threads[t := s.threads[t].(pc := PushStore(v, pos), line := None)])
    case PopMove(pos) =>
      && s.At(pos).data.Some? && pos < |s.popped|
      && s' == s.SetCell(pos, s.At(pos).(data := None)).Set(t, PopStore(pos, s.At(pos).data.value))
               .(popped := s.popped[pos := s.At(pos).data])
    case _ => false
  }

  ghost predicate StepStore(s: State, s': State, t: nat)
    requires t < |s.threads| && |s.cells| >= 1
  {
    match s.threads[t].pc
    case PushStore(v, pos) =>
      s' == s.SetCell(pos, s.At(pos).(sequence := pos + 1)).Set(t, PushDone(v, Some(pos)))
    case PopStore(pos, out) =>
      s' == s.SetCell(pos, s.At(pos).(sequence := pos + |s.cells|)).Set(t, PopDone(Some(Taken(pos, out))))
    case _ => false
  }

  ghost predicate Step(s: State, s': State, t: nat) {
    && t < |s.threads| && |s.cells| >= 1
    && (|| StepCall(s, s', t) || StepLoad(s, s', t) || StepRead(s, s', t) || StepRetry(s, s', t)
        || StepClaimPush(s, s', t) || StepClaimPop(s, s', t) || StepMove(s, s', t) || StepStore(s, s', t))
  }

  // ---------------------------------------------------------------- invariant

  /** The cell waits for push ticket p. */
  ghost predicate FreeFor(s: State, p: nat)
    requires |s.cells| >= 1
  {
    && s.At(p).sequence == p
    && s.deq <= p < s.deq + |s.cells|
    && (p < s.enq ==> exists t :: s.OwnsPush(t, p))
  }

  /** The cell holds the line of ticket p. */
  ghost predicate Published(s: State, p: nat)
    requires s.Shape()
  {
    && s.At(p).sequence == p + 1
    && p < s.enq <= p + |s.cells|
    && (if p < s.deq then exists t :: s.OwnsPop(t, p) else s.At(p).data == Some(s.pushed[p]))
  }

  ghost predicate CellInv(s: State, i: nat)
    requires s.Shape() && i < |s.cells|
  {
    var q := s.cells[i].sequence;
    || (q % |s.cells| == i && FreeFor(s, q))
    || (q >= 1 && (q - 1) % |s.cells| == i && Published(s, q - 1))
  }

  ghost predicate ThreadInv(s: State, t: nat)
    requires s.Shape() && t < |s.threads|
  {
    var line := s.threads[t].line;
    match s.threads[t].pc
    case Idle => true
    case PushLoad(v) => line == Some(v)
    case PushRead(v, pos) => line == Some(v) && pos <= s.enq
    case PushTest(v, pos, seen) => line == Some(v) && pos <= s.enq && seen <= s.At(pos).sequence
    case PushMove(v, pos) =>
      && line == Some(v) && s.deq <= pos < s.enq
      && s.pushed[pos] == v && s.At(pos).sequence == pos
    case PushStore(v, pos) =>
      && line == None && s.deq <= pos < s.enq
      && s.pushed[pos] == v && s.At(pos) == Cell(pos, Some(v))
    case PushDone(v, ticket) =>
      if ticket.Some? then line == None && ticket.value < s.enq && s.pushed[ticket.value] == v
      else line == Some(v)
    case PopLoad => true
    case PopRead(pos) => pos <= s.deq
    case PopTest(pos, seen) => pos <= s.deq && seen <= s.At(pos).sequence
    case PopMove(pos) =>
      && pos < s.deq <= s.enq && s.popped[pos] == None
      && s.At(pos) == Cell(pos + 1, Some(s.pushed[pos]))
    case PopStore(pos, out) =>
      && pos < s.deq <= s.enq && s.popped[pos] == Some(out)
      && out == s.pushed[pos] && s.At(pos).sequence == pos + 1
    case PopDone(taken) =>
      taken.Some? ==>
        && taken.value.pos < s.deq <= s.enq && s.popped[taken.value.pos] == Some(taken.value.out)
        && taken.value.out == s.pushed[taken.value.pos]
  }

  ghost predicate PoppedInv(s: State, p: nat)
    requires s.Shape() && s.deq <= s.enq && p < s.deq
  {
    if s.popped[p].Some? then s.popped[p] == Some(s.pushed[p])
    else exists t :: s.OwnsPop(t, p)
  }

  ghost predicate SingleOwner(s: State) {
    && (forall t, u, p :: s.OwnsPush(t, p) && s.OwnsPush(u, p) ==> t == u)
    && (forall t, u, p :: s.OwnsPop(t, p) && s.OwnsPop(u, p) ==> t == u)
  }

  ghost predicate Inv(s: State) {
    && s.Shape() && |s.cells| >= 2
    && s.deq <= s.enq <= s.deq + |s.cells|
    && (forall i: nat {:trigger s.cells[i]} :: i < |s.cells| ==> CellInv(s, i))
    && (forall t: nat {:trigger s.threads[t]} :: t < |s.threads| ==> ThreadInv(s, t))
    && (forall p: nat {:trigger s.popped[p]} :: p < s.deq ==> PoppedInv(s, p))
    && SingleOwner(s)
  }

  // ---------------------------------------------------------------- what keeps the invariant

  lemma InitInv(s: State)
    requires Init(s) && |s.cells| >= 2
    ensures Inv(s)
  {
    forall i: nat | i < |s.cells| ensures CellInv(s, i) {
      assert s.cells[i] == Cell(i, None);
      assert i % |s.cells| == i;
    }
    forall t: nat | t < |s.threads| ensures ThreadInv(s, t) {
      assert s.threads[t].pc == Idle;
    }
  }

  /** A step that changes one thread only, and neither takes nor gives up a ticket. */
  lemma LocalKeepsInv(s: State, s': State, t: nat, th: Thread)
    requires Inv(s) && t < |s.threads| && s' == s.(threads := s.threads[t := th])
    requires forall p :: !s.OwnsPush(t, p) && !s.OwnsPop(t, p)
    requires forall p :: !s'.OwnsPush(t, p) && !s'.OwnsPop(t, p)
    requires ThreadInv(s', t)
    ensures Inv(s')
  {
    SameOwners(s, s', t);
    forall i: nat | i < |s'.cells| ensures CellInv(s', i) {
      LocalKeepsCell(s, s', i);
    }
    forall u: nat | u < |s'.threads| ensures ThreadInv(s', u) {
      if u != t {
        LocalKeepsThread(s, s', u);
      }
    }
    forall p: nat | p < s'.deq ensures PoppedInv(s', p) {
      LocalKeepsPopped(s, s', p);
    }
  }

  lemma LocalKeepsPopped(s: State, s': State, p: nat)
    requires s.Shape() && s.deq <= s.enq && p < s.deq && PoppedInv(s, p)
    requires s' == s.(threads := s'.threads)
    requires forall u, p :: s.OwnsPop(u, p) == s'.OwnsPop(u, p)
    ensures PoppedInv(s', p)
  {}

  lemma SameOwners(s: State, s': State, t: nat)
    requires t < |s.threads| == |s'.threads| && s'.threads == s.threads[t := s'.threads[t]]
    requires forall p :: !s.OwnsPush(t, p) && !s.OwnsPop(t, p)
    requires forall p :: !s'.OwnsPush(t, p) && !s'.OwnsPop(t, p)
    ensures forall u, p :: s.OwnsPush(u, p) == s'.OwnsPush(u, p)
    ensures forall u, p :: s.OwnsPop(u, p) == s'.OwnsPop(u, p)
    ensures SingleOwner(s) ==> SingleOwner(s')
  {
    assert forall u, p :: s.OwnsPush(u, p) == s'.OwnsPush(u, p);
    assert forall u, p :: s.OwnsPop(u, p) == s'.OwnsPop(u, p);
  }

  lemma LocalKeepsThread(s: State, s': State, u: nat)
    requires s.Shape() && u < |s.threads| && ThreadInv(s, u)
    requires s' == s.(threads := s'.threads) && |s'.threads| == |s.threads|
    requires s'.threads[u] == s.threads[u]
    ensures ThreadInv(s', u)
  {}

  lemma LocalKeepsCell(s: State, s': State, i: nat)
    requires s.Shape() && i < |s.cells| && CellInv(s, i)
    requires s' == s.(threads := s'.threads)
    requires forall u, p :: s.OwnsPush(u, p) == s'.OwnsPush(u, p)
    requires forall u, p :: s.OwnsPop(u, p) == s'.OwnsPop(u, p)
    ensures CellInv(s', i)
  {
    var q := s.cells[i].sequence;
    if q % |s.cells| == i && FreeFor(s, q) {
      assert FreeFor(s', q);
    } else {
      assert Published(s', q - 1);
    }
  }

  lemma LocalStepKeepsInv(s: State, s': State, t: nat)
    requires Inv(s) && t < |s.threads|
    requires StepCall(s, s', t) || StepLoad(s, s', t) || StepRead(s, s', t) || StepRetry(s, s', t)
    ensures Inv(s')
  {
    assert ThreadInv(s, t);
    LocalKeepsInv(s, s', t, s'.threads[t]);
  }

  /** At its CAS, a pusher that saw its own ticket finds the cell still free for that ticket.
      With one cell the two readings of the sequence coincide, so two cells are needed here. */
  lemma FreeAtClaim(s: State, pos: nat)
    requires Inv(s) && pos == s.enq && s.At(pos).sequence >= pos
    ensures FreeFor(s, pos) && s.enq < s.deq + |s.cells|
  {
    var n := |s.cells|;
    var i := pos % n;
    var q := s.cells[i].sequence;
    assert CellInv(s, i);
    if q % n == i && FreeFor(s, q) {
      ModUnique(q, pos, n);
    } else {
      ModNext(q - 1, n);
      assert false;
    }
  }

  /** Neighbouring numbers lie in different classes as soon as there are two classes. */
  lemma ModNext(a: int, n: nat)
    requires n >= 2
    ensures (a + 1) % n != a % n
  {
    if (a + 1) % n == a % n {
      var q, q' := a / n, (a + 1) / n;
      assert (q' - q) * n == 1 by { assert (q' - q) * n == q' * n - q * n; }
      MulApart(q' - q, n);
    }
  }

  lemma PublishedAtClaim(s: State, pos: nat)
    requires Inv(s) && pos == s.deq && s.At(pos).sequence >= pos + 1
    ensures Published(s, pos) && s.deq < s.enq
  {
    var n := |s.cells|;
    var i := pos % n;
    var q := s.cells[i].sequence;
    assert CellInv(s, i);
    if q % n == i && FreeFor(s, q) {
      ModUnique(q, pos, n);
    } else {
      ModUnique(q - 1, pos, n);
    }
  }

  /** The ticket a thread holds between its CAS and its store. */
  ghost predicate Owns(s: State, t: nat, p: nat) {
    s.OwnsPush(t, p) || s.OwnsPop(t, p)
  }

  lemma TicketFacts(s: State, t: nat, p: nat)
    requires Inv(s) && Owns(s, t, p)
    ensures s.OwnsPush(t, p) ==> p < s.enq && s.At(p).sequence == p
    ensures s.OwnsPop(t, p) ==> p < s.deq && s.At(p).sequence == p + 1
  {
    assert ThreadInv(s, t);
  }

  /** At most one thread owns a cell: two threads that hold tickets hold different cells. */
  lemma OwnersApart(s: State, t: nat, p: nat, u: nat, q: nat)
    requires Inv(s) && Owns(s, t, p) && Owns(s, u, q) && t != u
    ensures p % |s.cells| != q % |s.cells|
  {
    if p % |s.cells| == q % |s.cells| {
      TicketFacts(s, t, p);
      TicketFacts(s, u, q);
      assert s.At(p) == s.At(q);
      SameKindSameThread(s, t, u, p);
      if p == q + 1 {
        ModNext(q, |s.cells|);
      } else if q == p + 1 {
        ModNext(p, |s.cells|);
      }
    }
  }

  lemma SameKindSameThread(s: State, t: nat, u: nat, p: nat)
    requires Inv(s) && t != u
    ensures !(s.OwnsPush(t, p) && s.OwnsPush(u, p))
    ensures !(s.OwnsPop(t, p) && s.OwnsPop(u, p))
  {
    assert SingleOwner(s);
    var a, b := s.OwnsPush(t, p), s.OwnsPush(u, p);
    var c, d := s.OwnsPop(t, p), s.OwnsPop(u, p);
  }

  /** Tickets held by the other threads are the same before and after a step of t. */
  lemma OthersKeepTickets(s: State, s': State, t: nat)
    requires t < |s.threads| == |s'.threads| && s'.threads == s.threads[t := s'.threads[t]]
    ensures forall u, p :: u != t ==> s.OwnsPush(u, p) == s'.OwnsPush(u, p)
    ensures forall u, p :: u != t ==> s.OwnsPop(u, p) == s'.OwnsPop(u, p)
  {}

  /** If only t's tickets change and none of them is held by another thread, owners stay single. */
  lemma OwnersStaySingle(s: State, s': State, t: nat)
    requires SingleOwner(s) && t < |s.threads| == |s'.threads| && s'.threads == s.threads[t := s'.threads[t]]
    requires forall u, p :: s'.OwnsPush(t, p) && u != t ==> !s.OwnsPush(u, p)
    requires forall u, p :: s'.OwnsPop(t, p) && u != t ==> !s.OwnsPop(u, p)
    ensures SingleOwner(s')
  {
    OthersKeepTickets(s, s', t);
    assert forall u, p :: u != t ==> s.OwnsPush(u, p) == s'.OwnsPush(u, p);
    assert forall u, p :: u != t ==> s.OwnsPop(u, p) == s'.OwnsPop(u, p);
  }

  lemma ClaimPushKeepsInv(s: State, s': State, t: nat)
    requires Inv(s) && t < |s.threads| && StepClaimPush(s, s', t)
    ensures Inv(s')
  {
    assert ThreadInv(s, t);
    FreeAtClaim(s, s.enq);
    forall i: nat | i < |s'.cells| ensures CellInv(s', i) {
      ClaimPushCell(s, s', t, i);
    }
    forall u: nat | u < |s'.threads| ensures ThreadInv(s', u) {
      ClaimPushThread(s, s', t, u);
    }
    forall p: nat | p < s'.deq ensures PoppedInv(s', p) {
      OthersKeepPopped(s, s', t, p);
    }
    forall u: nat ensures !s.OwnsPush(u, s.enq) {
      if s.OwnsPush(u, s.enq) {
        TicketFacts(s, u, s.enq);
      }
    }
    OwnersStaySingle(s, s', t);
  }

  lemma ClaimPushCell(s: State, s': State, t: nat, i: nat)
    requires Inv(s) && t < |s.threads| && StepClaimPush(s, s', t)
    requires i < |s.cells|
    ensures CellInv(s', i)
  {
    var n := |s.cells|;
    var q := s.cells[i].sequence;
    assert CellInv(s, i);
    assert s'.OwnsPush(t, s.enq);
    OthersKeepTickets(s, s', t);
    if q % n == i && FreeFor(s, q) {
      assert FreeFor(s', q);
    } else {
      if s.enq == q - 1 + n {
        assert ThreadInv(s, t);
        FreeAtClaim(s, s.enq);
        ModAddPeriod(q - 1, 1, n);
        assert false;
      }
      assert Published(s', q - 1);
    }
  }

  lemma ClaimPushThread(s: State, s': State, t: nat, u: nat)
    requires Inv(s) && t < |s.threads| && StepClaimPush(s, s', t)
    requires FreeFor(s, s.enq) && u < |s.threads|
    ensures ThreadInv(s', u)
  {
    assert ThreadInv(s, t) && ThreadInv(s, u);
  }

  /** Tickets already popped, or being popped by others, are untouched by a step of t. */
  lemma OthersKeepPopped(s: State, s': State, t: nat, p: nat)
    requires s.Shape() && s.deq <= s.enq && p < s.deq && PoppedInv(s, p)
    requires s'.Shape() && s'.deq <= s'.enq && p < s'.deq && s'.enq >= s.enq
    requires s'.popped[p] == s.popped[p] && s'.pushed[p] == s.pushed[p]
    requires t < |s.threads| == |s'.threads| && s'.threads == s.threads[t := s'.threads[t]]
    requires !s.OwnsPop(t, p) || s'.OwnsPop(t, p)
    ensures PoppedInv(s', p)
  {
    OthersKeepTickets(s, s', t);
    if s.popped[p].None? {
      var u: nat :| s.OwnsPop(u, p);
      assert s'.OwnsPop(u, p);
    }
  }

  lemma ClaimPopKeepsInv(s: State, s': State, t: nat)
    requires Inv(s) && t < |s.threads| && StepClaimPop(s, s', t)
    ensures Inv(s')
  {
    assert ThreadInv(s, t);
    PublishedAtClaim(s, s.deq);
    forall i: nat | i < |s'.cells| ensures CellInv(s', i) {
      ClaimPopCell(s, s', t, i);
    }
    forall u: nat | u < |s'.threads| ensures ThreadInv(s', u) {
      ClaimPopThread(s, s', t, u);
    }
    forall p: nat | p < s'.deq ensures PoppedInv(s', p) {
      if p < s.deq {
        assert PoppedInv(s, p);
        OthersKeepPopped(s, s', t, p);
      } else {
        assert s'.OwnsPop(t, p);
      }
    }
    forall u: nat ensures !s.OwnsPop(u, s.deq) {
      if s.OwnsPop(u, s.deq) {
        TicketFacts(s, u, s.deq);
      }
    }
    OwnersStaySingle(s, s', t);
  }

  lemma ClaimPopCell(s: State, s': State, t: nat, i: nat)
    requires Inv(s) && t < |s.threads| && StepClaimPop(s, s', t)
    requires Published(s, s.deq) && i < |s.cells|
    ensures CellInv(s', i)
  {
    var n := |s.cells|;
    var q := s.cells[i].sequence;
    assert CellInv(s, i);
    assert s'.OwnsPop(t, s.deq);
    OthersKeepTickets(s, s', t);
    if q % n == i && FreeFor(s, q) {
      assert q != s.deq;
      assert FreeFor(s', q);
    } else {
      assert Published(s', q - 1);
    }
  }

  lemma ClaimPopThread(s: State, s': State, t: nat, u: nat)
    requires Inv(s) && t < |s.threads| && StepClaimPop(s, s', t)
    requires Published(s, s.deq) && u < |s.threads|
    ensures ThreadInv(s', u)
  {
    assert ThreadInv(s, t) && ThreadInv(s, u);
  }

  /** What a step of the owner of ticket p may change: its own cell, forwards, and its own entry
      of the pop history. */
  ghost predicate OwnerStep(s: State, s': State, t: nat, p: nat) {
    && s.Shape() && s'.Shape()
    && Owns(s, t, p) && |s'.threads| == |s.threads|
    && s'.threads == s.threads[t := s'.threads[t]]
    && s'.enq == s.enq && s'.deq == s.deq && s'.pushed == s.pushed
    && (s'.popped == s.popped || (p < s.deq && s.popped[p] == None && s'.popped == s.popped[p := s'.popped[p]]))
    && s'.cells == s.cells[p % |s.cells| := s'.At(p)]
    && s.At(p).sequence <= s'.At(p).sequence
  }

  lemma OwnerStepOtherThread(s: State, s': State, t: nat, p: nat, u: nat)
    requires Inv(s) && OwnerStep(s, s', t, p) && u < |s.threads| && u != t
    ensures ThreadInv(s', u)
  {
    assert ThreadInv(s, u);
    var pc := s.threads[u].pc;
    if pc.PushMove? || pc.PushStore? {
      assert s.OwnsPush(u, pc.pos);
      OwnersApart(s, t, p, u, pc.pos);
    } else if pc.PopMove? || pc.PopStore? {
      assert s.OwnsPop(u, pc.pos);
      OwnersApart(s, t, p, u, pc.pos);
    }
  }

  lemma OwnerStepOtherCell(s: State, s': State, t: nat, p: nat, i: nat)
    requires Inv(s) && OwnerStep(s, s', t, p) && i < |s.cells| && i != p % |s.cells|
    ensures CellInv(s', i)
  {
    assert CellInv(s, i);
    OthersKeepTickets(s, s', t);
    var q := s.cells[i].sequence;
    if q % |s.cells| == i && FreeFor(s, q) {
      if q < s.enq {
        var u: nat :| s.OwnsPush(u, q);
        assert s'.OwnsPush(u, q);
      }
      assert FreeFor(s', q);
    } else {
      if q - 1 < s.deq {
        var u: nat :| s.OwnsPop(u, q - 1);
        assert s'.OwnsPop(u, q - 1);
      }
      assert Published(s', q - 1);
    }
  }

  /** The owner's step is safe once its own thread, its own cell and its own history entry are. */
  lemma OwnerStepKeepsInv(s: State, s': State, t: nat, p: nat)
    requires Inv(s) && OwnerStep(s, s', t, p)
    requires ThreadInv(s', t) && CellInv(s', p % |s.cells|)
    requires p < s.deq ==> PoppedInv(s', p)
    requires forall r :: (s'.OwnsPush(t, r) ==> s.OwnsPush(t, r)) && (s'.OwnsPop(t, r) ==> s.OwnsPop(t, r))
    ensures Inv(s')
  {
    forall i: nat | i < |s'.cells| ensures CellInv(s', i) {
      if i != p % |s.cells| {
        OwnerStepOtherCell(s, s', t, p, i);
      }
    }
    forall u: nat | u < |s'.threads| ensures ThreadInv(s', u) {
      if u != t {
        OwnerStepOtherThread(s, s', t, p, u);
      }
    }
    forall r: nat | r < s'.deq ensures PoppedInv(s', r) {
      if r != p {
        assert s.popped[r] == s'.popped[r];
        assert PoppedInv(s, r);
        OthersKeepPopped(s, s', t, r);
      }
    }
    OwnersStaySingle(s, s', t);
  }

  lemma MoveKeepsInv(s: State, s': State, t: nat)
    requires Inv(s) && t < |s.threads| && StepMove(s, s', t)
    ensures Inv(s')
  {
    var p := s.threads[t].pc.pos;
    var i := p % |s.cells|;
    assert ThreadInv(s, t);
    assert CellInv(s, i);
    ModNext(p, |s.cells|);
    ModNext(p - 1, |s.cells|);
    if s.threads[t].pc.PushMove? {
      assert s.OwnsPush(t, p) && s'.OwnsPush(t, p);
      assert FreeFor(s', p);
    } else {
      assert s.OwnsPop(t, p) && s'.OwnsPop(t, p);
      assert Published(s', p);
    }
    OwnerStepKeepsInv(s, s', t, p);
  }

  lemma StoreKeepsInv(s: State, s': State, t: nat)
    requires Inv(s) && t < |s.threads| && StepStore(s, s', t)
    ensures Inv(s')
  {
    var p := s.threads[t].pc.pos;
    var i := p % |s.cells|;
    assert ThreadInv(s, t);
    assert CellInv(s, i);
    ModNext(p, |s.cells|);
    ModNext(p - 1, |s.cells|);
    ModAddPeriod(p, 1, |s.cells|);
    if s.threads[t].pc.PushStore? {
      assert s.OwnsPush(t, p);
      assert Published(s', p);
    } else {
      assert s.OwnsPop(t, p);
      assert FreeFor(s', p + |s.cells|);
    }
    OwnerStepKeepsInv(s, s', t, p);
  }

  lemma StepKeepsInv(s: State, s': State, t: nat)
    requires Inv(s) && Step(s, s', t)
    ensures Inv(s')
  {
    if StepClaimPush(s, s', t) {
      ClaimPushKeepsInv(s, s', t);
    } else if StepClaimPop(s, s', t) {
      ClaimPopKeepsInv(s, s', t);
    } else if StepMove(s, s', t) {
      MoveKeepsInv(s, s', t);
    } else if StepStore(s, s', t) {
      StoreKeepsInv(s, s', t);
    } else {
      LocalStepKeepsInv(s, s', t);
    }
  }

  // ---------------------------------------------------------------- whole runs

  ghost predicate Next(s: State, s': State) {
    exists t :: Step(s, s', t)
  }

  /** A finite run: neighbouring states are related by a step of some thread. */
  ghost predicate Run(run: seq<State>) {
    && |run| >= 1
    && forall k :: 0 < k < |run| ==> Next(run[k - 1], run[k])
  }

  ghost predicate Reaches(s: State, s': State) {
    exists run :: Run(run) && run[0] == s && run[|run| - 1] == s'
  }

  /** Reachable from a freshly constructed ring of at least two cells. */
  ghost predicate Reachable(s: State) {
    exists s0 :: Init(s0) && |s0.cells| >= 2 && Reaches(s0, s)
  }

  lemma {:induction false} RunKeepsInv(run: seq<State>, k: nat)
    requires Run(run) && Inv(run[0]) && k < |run|
    ensures Inv(run[k])
    ensures run[0].enq <= run[k].enq && run[0].pushed == run[k].pushed[..run[0].enq]
    ensures run[0].deq <= run[k].deq && |run[0].cells| == |run[k].cells| && |run[0].threads| == |run[k].threads|
  {
    if k > 0 {
      RunKeepsInv(run, k - 1);
      assert Next(run[k - 1], run[k]);
      var t :| Step(run[k - 1], run[k], t);
      StepKeepsInv(run[k - 1], run[k], t);
      StepGrows(run[k - 1], run[k], t);
    }
  }

  /** Positions never move back and the push history is only ever extended. */
  lemma StepGrows(s: State, s': State, t: nat)
    requires Inv(s) && Step(s, s', t)
    ensures s.enq <= s'.enq && s.pushed == s'.pushed[..s.enq]
    ensures s.deq <= s'.deq && |s.cells| == |s'.cells| && |s.threads| == |s'.threads|
  {}

  /** The ring invariant holds in every state of every run, for any number of threads. */
  lemma ReachableInv(s: State)
    requires Reachable(s)
    ensures Inv(s)
  {
    var s0 :| Init(s0) && |s0.cells| >= 2 && Reaches(s0, s);
    var run :| Run(run) && run[0] == s0 && run[|run| - 1] == s;
    InitInv(s0);
    RunKeepsInv(run, |run| - 1);
  }

  lemma ReachesStep(s: State, m: State, s': State, t: nat)
    requires Reaches(s, m) && Step(m, s', t)
    ensures Reaches(s, s')
  {
    var run :| Run(run) && run[0] == s && run[|run| - 1] == m;
    var longer := run + [s'];
    assert Step(m, s', t) && Next(m, s');
    forall k | 0 < k < |longer| ensures Next(longer[k - 1], longer[k]) {
      if k < |run| {
        assert Next(run[k - 1], run[k]);
      }
    }
    assert Run(longer);
  }

  lemma ReachesTrans(s: State, m: State, s': State)
    requires Reaches(s, m) && Reaches(m, s')
    ensures Reaches(s, s')
  {
    var a :| Run(a) && a[0] == s && a[|a| - 1] == m;
    var b :| Run(b) && b[0] == m && b[|b| - 1] == s';
    var run := a + b[1..];
    forall k | 0 < k < |run| ensures Next(run[k - 1], run[k]) {
      if k < |a| {
        assert Next(a[k - 1], a[k]);
      } else {
        assert Next(b[k - |a|], b[k - |a| + 1]);
      }
    }
    assert Run(run);
  }
}

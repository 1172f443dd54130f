/** What the ring of src/logging.cc promises in every reachable state, and why it takes two cells. */
module MpmcPromises {
  import opened Prelude
  import opened MpmcRing

  /** Nothing is lost, duplicated or reordered. Of each claimed push ticket p: once its pop has
      taken a line, it is the line pushed with p; before that the line sits in the cell of p,
      unless the one thread that claimed the push has not published it yet. */
  lemma TicketsCarryTheirLines(s: State, p: nat)
    requires Reachable(s) && p < s.enq
    ensures Inv(s)
    ensures p < s.deq && s.popped[p].Some? ==> s.popped[p] == Some(s.pushed[p])
    ensures p < s.deq && s.popped[p].None? ==> s.At(p) == Cell(p + 1, Some(s.pushed[p]))
    ensures p >= s.deq ==> s.At(p) == Cell(p + 1, Some(s.pushed[p])) || exists t :: s.OwnsPush(t, p)
  {
    ReachableInv(s);
    if p < s.deq {
      assert PoppedInv(s, p);
      if s.popped[p].None? {
        var t: nat :| s.OwnsPop(t, p);
        assert ThreadInv(s, t);
      }
    } else {
      CellOfLiveTicket(s, p);
    }
  }

  /** The cell of a ticket between the two positions is either still free for it or holds it. */
  lemma CellOfLiveTicket(s: State, p: nat)
    requires Inv(s) && s.deq <= p < s.enq
    ensures FreeFor(s, p) || Published(s, p)
  {
    var n := |s.cells|;
    var i := p % n;
    var q := s.cells[i].sequence;
    assert CellInv(s, i);
    if q % n == i && FreeFor(s, q) {
      ModUnique(q, p, n);
    } else {
      ModUnique(q - 1, p, n);
    }
  }

  /** The cell of a ticket already claimed by a pop has moved past it. */
  lemma CellOfOldTicket(s: State, p: nat)
    requires Inv(s) && p < s.deq
    ensures s.At(p).sequence >= p + 1
  {
    var n := |s.cells|;
    var i := p % n;
    var q := s.cells[i].sequence;
    assert CellInv(s, i);
    if !(q % n == i && FreeFor(s, q)) && q - 1 < p {
      ModUnique(q - 1, p, n);
    }
  }

  /** When no thread is between its CAS and its store, the pops have taken exactly the first deq
      lines pushed, in push order, and the cells hold exactly the others. */
  lemma QuiescentRingIsAQueue(s: State)
    requires Reachable(s) && forall t, p :: !s.OwnsPush(t, p) && !s.OwnsPop(t, p)
    ensures |s.popped| == s.deq <= s.enq == |s.pushed| <= s.deq + |s.cells|
    ensures forall p :: 0 <= p < s.deq ==> s.popped[p] == Some(s.pushed[p])
    ensures forall p :: s.deq <= p < s.enq ==> s.At(p).data == Some(s.pushed[p])
  {
    ReachableInv(s);
    forall p: nat | p < s.enq
      ensures if p < s.deq then s.popped[p] == Some(s.pushed[p]) else s.At(p).data == Some(s.pushed[p])
    {
      TicketsCarryTheirLines(s, p);
      if p < s.deq {
        assert PoppedInv(s, p);
      }
    }
  }

  /** A finished call knows the truth: a push that returned true left its line under its ticket,
      one that returned false still has it, and a popped line is the one pushed under that ticket. */
  lemma FinishedCalls(s: State, t: nat)
    requires Reachable(s) && t < |s.threads|
    ensures Inv(s)
    ensures var th := s.threads[t];
      && (th.pc.PushDone? && th.pc.ticket.Some? ==>
            th.pc.ticket.value < s.enq && s.pushed[th.pc.ticket.value] == th.pc.arg && th.line == None)
      && (th.pc.PushDone? && th.pc.ticket.None? ==> th.line == Some(th.pc.arg))
      && (th.pc.PopDone? && th.pc.taken.Some? ==>
            th.pc.taken.value.pos < s.deq && s.pushed[th.pc.taken.value.pos] == th.pc.taken.value.out)
  {
    ReachableInv(s);
    assert ThreadInv(s, t);
  }

  /** The load that makes push answer false finds the sequence behind its ticket exactly when, at
      that moment, the ticket is the next one and the ring is full. */
  lemma PushFailsIffFull(s: State, s': State, t: nat)
    requires Inv(s) && t < |s.threads| && s.threads[t].pc.PushRead? && StepRead(s, s', t)
    ensures s'.threads[t].pc.PushTest?
    ensures s'.threads[t].pc.seen < s'.threads[t].pc.pos <==> s.threads[t].pc.pos == s.enq && s.Full()
  {
    var n := |s.cells|;
    var pos := s.threads[t].pc.pos;
    assert ThreadInv(s, t);
    if pos < s.deq {
      CellOfOldTicket(s, pos);
    } else if pos < s.enq {
      CellOfLiveTicket(s, pos);
    } else {
      FullCell(s);
    }
  }

  lemma FullCell(s: State)
    requires Inv(s)
    ensures s.At(s.enq).sequence < s.enq <==> s.Full()
  {
    var n := |s.cells|;
    var q := s.At(s.enq).sequence;
    if q < s.enq {
      assert CellInv(s, s.enq % n);
      var r := if q % n == s.enq % n && FreeFor(s, q) then q else q - 1;
      if r + n > s.enq {
        ModUnique(r, s.enq, n);
        assert false;
      }
      assert r + n == s.enq;
    }
    if s.Full() {
      var r := s.enq - n;
      ModAddPeriod(r, 1, n);
      if r >= s.deq {
        CellOfLiveTicket(s, r);
      } else {
        var u: nat :| s.OwnsPop(u, r);
        TicketFacts(s, u, r);
      }
    }
  }

  /** Likewise for pop: it answers false exactly when the next pop ticket is not published yet. */
  lemma PopFailsIffEmpty(s: State, s': State, t: nat)
    requires Inv(s) && t < |s.threads| && s.threads[t].pc.PopRead? && StepRead(s, s', t)
    ensures s'.threads[t].pc.PopTest?
    ensures s'.threads[t].pc.seen < s'.threads[t].pc.pos + 1 <==> s.threads[t].pc.pos == s.deq && s.Empty()
  {
    var pos := s.threads[t].pc.pos;
    assert ThreadInv(s, t);
    if pos < s.deq {
      CellOfOldTicket(s, pos);
    } else if s.At(pos).sequence >= pos + 1 {
      PublishedAtClaim(s, pos);
      forall u: nat ensures !s.OwnsPush(u, pos) {
        if s.OwnsPush(u, pos) {
          TicketFacts(s, u, pos);
        }
      }
    } else if s.deq < s.enq {
      CellOfLiveTicket(s, pos);
    }
  }

  // ---------------------------------------------------------------- one cell is not enough

  /** The constructor turns capacity 0 or 1 into a ring of one cell. There "full for ticket p"
      and "free for ticket p + 1" are the same number, and the second push overwrites the first. */
  lemma OneCellLosesALine(v: Line, w: Line) returns (s0: State, s: State)
    ensures Init(s0) && |s0.cells| == 1 && Reaches(s0, s)
    ensures s.enq == 2 && s.deq == 0 && s.pushed == [v, w]
    ensures s.cells == [Cell(2, Some(w))] && s.threads == [Thread(PushDone(w, Some(1)), None, 2)]
  {
    s0 := State([Cell(0, None)], 0, 0, [Thread(Idle, None, 0)], [], []);
    assert Run([s0]);
    var s1 := SoloPushOneCell(s0, s0, v);
    s := SoloPushOneCell(s0, s1, w);
  }

  /** One thread pushes alone on a ring of one cell whose sequence equals the push position. */
  lemma SoloPushOneCell(s0: State, s: State, v: Line) returns (s': State)
    requires Reaches(s0, s) && |s.cells| == 1 && |s.threads| == 1
    requires s.threads[0].pc.Idle? || s.threads[0].pc.PushDone?
    requires s.cells[0].sequence == s.enq
    ensures Reaches(s0, s')
    ensures s' == State([Cell(s.enq + 1, Some(v))], s.enq + 1, s.deq,
                        [Thread(PushDone(v, Some(s.enq)), None, s.threads[0].looks + 1)], s.pushed + [v], s.popped)
  {
    var n := s.threads[0].looks;
    var d := SoloClaimOneCell(s0, s, v);
    var e := State([Cell(s.enq, Some(v))], d.enq, d.deq, [Thread(PushStore(v, s.enq), None, n + 1)],
                   d.pushed, d.popped);
    assert StepMove(d, e, 0);
    ReachesStep(s0, d, e, 0);
    s' := State([Cell(s.enq + 1, Some(v))], d.enq, d.deq,
                [Thread(PushDone(v, Some(s.enq)), None, s.threads[0].looks + 1)], d.pushed, d.popped);
    assert StepStore(e, s', 0);
    ReachesStep(s0, e, s', 0);
  }

  lemma SoloClaimOneCell(s0: State, s: State, v: Line) returns (d: State)
    requires Reaches(s0, s) && |s.cells| == 1 && |s.threads| == 1
    requires s.threads[0].pc.Idle? || s.threads[0].pc.PushDone?
    requires s.cells[0].sequence == s.enq
    ensures Reaches(s0, d)
    ensures d == State(s.cells, s.enq + 1, s.deq, [Thread(PushMove(v, s.enq), Some(v), s.threads[0].looks + 1)],
                       s.pushed + [v], s.popped)
  {
    var n := s.threads[0].looks;
    var a := s.(threads := [Thread(PushLoad(v), Some(v), n)]);
    assert a == s.(threads := s.threads[0 := Thread(PushLoad(v), Some(v), n)]);
    assert StepCall(s, a, 0);
    ReachesStep(s0, s, a, 0);
    var b := s.(threads := [Thread(PushRead(v, s.enq), Some(v), n)]);
    assert StepLoad(a, b, 0);
    ReachesStep(s0, a, b, 0);
    var c := s.(threads := [Thread(PushTest(v, s.enq, s.enq), Some(v), n + 1)]);
    assert StepRead(b, c, 0);
    ReachesStep(s0, b, c, 0);
    d := State(s.cells, s.enq + 1, s.deq, [Thread(PushMove(v, s.enq), Some(v), n + 1)],
               s.pushed + [v], s.popped);
    assert StepClaimPush(c, d, 0);
    ReachesStep(s0, c, d, 0);
  }
}

/** The ring of src/logging.cc as the machine really is: positions, sequences and differences are
    64-bit words. Its runs are runs of MpmcRing, seen through wrapping, as long as no thread holds a
    ticket that is 2^63 tickets old. */
module WordRing {
  import opened Prelude
  import opened MpmcRing
  import opened MpmcWords

  /** Cells and program counters as in MpmcRing, with words for tickets. */
  datatype Words = Words(cells: seq<Cell>, enq: nat, deq: nat, threads: seq<Thread>) {
    /** pos & buffer_mask_ */
    function Index(pos: nat): nat {
      BitAnd(pos, if |cells| == 0 then 0 else |cells| - 1)
    }

    function Set(t: nat, pc: Pc): Words
      requires t < |threads|
    {
      this.(threads := threads[t := threads[t].(pc := pc)])
    }

    function Look(t: nat, pc: Pc): Words
      requires t < |threads|
    {
      this.(threads := threads[t := threads[t].(pc := pc, looks := threads[t].looks + 1)])
    }
  }

  function Plus(pos: nat, n: nat): nat {
    (pos + n) % U64
  }

  // ---------------------------------------------------------------- steps on words

  ghost predicate WordCall(w: Words, w': Words, t: nat)
    requires t < |w.threads|
  {
    && (w.threads[t].pc.Idle? || w.threads[t].pc.PushDone? || w.threads[t].pc.PopDone?)
    && (|| w' == w.Set(t, PopLoad)
        || exists v :: w' == w.(threads := w.threads[t := w.threads[t].(pc := PushLoad(v), line := Some(v))]))
  }

  ghost predicate WordLoad(w: Words, w': Words, t: nat)
    requires t < |w.threads|
  {
    match w.threads[t].pc
    case PushLoad(v) => w' == w.Set(t, PushRead(v, w.enq))
    case PopLoad => w' == w.Set(t, PopRead(w.deq))
    case _ => false
  }

  ghost predicate WordRead(w: Words, w': Words, t: nat)
    requires t < |w.threads|
  {
    match w.threads[t].pc
    case PushRead(v, pos) =>
      w.Index(pos) < |w.cells| && w' == w.Look(t, PushTest(v, pos, w.cells[w.Index(pos)].sequence))
    case PopRead(pos) =>
      w.Index(pos) < |w.cells| && w' == w.Look(t, PopTest(pos, w.cells[w.Index(pos)].sequence))
    case _ => false
  }

  /** The three branches on the signed difference; the compare-exchange may fail spuriously. */
  ghost predicate WordTest(w: Words, w': Words, t: nat)
    requires t < |w.threads|
  {
    match w.threads[t].pc
    case PushTest(v, pos, seen) =>
      var diff := SignedDiff(seen, pos);
      if diff < 0 then w' == w.Set(t, PushDone(v, None))
      else if diff > 0 then w' == w.Set(t, PushLoad(v))
      else
        || w' == w.Set(t, PushRead(v, w.enq))
        || (w.enq == pos && w' == w.Set(t, PushMove(v, pos)).(enq := Plus(pos, 1)))
    case PopTest(pos, seen) =>
      var diff := SignedDiff(seen, Plus(pos, 1));
      if diff < 0 then w' == w.Set(t, PopDone(None))
      else if diff > 0 then w' == w.Set(t, PopLoad)
      else
        || w' == w.Set(t, PopRead(w.deq))
        || (w.deq == pos && w' == w.Set(t, PopMove(pos)).(deq := Plus(pos, 1)))
    case _ => false
  }

  ghost predicate WordMove(w: Words, w': Words, t: nat)
    requires t < |w.threads|
  {
    match w.threads[t].pc
    case PushMove(v, pos) =>
      && var i := w.Index(pos);
      && i < |w.cells|
      && w' == w.(cells := w.cells[i := w.cells[i].(data := w.threads[t].line)],
                  threads := w.threads[t := w.threads[t].(pc := PushStore(v, pos), line := None)])
    case PopMove(pos) =>
      && var i := w.Index(pos);
      && i < |w.cells| && w.cells[i].data.Some?
      && w' == w.Set(t, PopStore(pos, w.cells[i].data.value)).(cells := w.cells[i := w.cells[i].(data := None)])
    case _ => false
  }

  ghost predicate WordStore(w: Words, w': Words, t: nat)
    requires t < |w.threads|
  {
    match w.threads[t].pc
    case PushStore(v, pos) =>
      && var i := w.Index(pos);
      && i < |w.cells|
      && w' == w.Set(t, PushDone(v, Some(pos))).(cells := w.cells[i := w.cells[i].(sequence := Plus(pos, 1))])
    case PopStore(pos, out) =>
      && var i := w.Index(pos);
      && i < |w.cells|
      && w' == w.Set(t, PopDone(Some(Taken(pos, out))))
               .(cells := w.cells[i := w.cells[i].(sequence := Plus(pos, |w.cells|))])
    case _ => false
  }

  ghost predicate WordStep(w: Words, w': Words, t: nat) {
    && t < |w.threads|
    && (|| WordCall(w, w', t) || WordLoad(w, w', t) || WordRead(w, w', t) || WordTest(w, w', t)
        || WordMove(w, w', t) || WordStore(w, w', t))
  }

  ghost predicate WordNext(w: Words, w': Words) {
    exists t :: WordStep(w, w', t)
  }

  ghost predicate WordRun(words: seq<Words>) {
    && |words| >= 1
    && forall k :: 0 < k < |words| ==> WordNext(words[k - 1], words[k])
  }

  // ---------------------------------------------------------------- wrapping

  function WrapCell(c: Cell): Cell {
    Cell(Word(c.sequence), c.data)
  }

  function WrapPc(pc: Pc): Pc {
    match pc
    case Idle => Idle
    case PushLoad(v) => PushLoad(v)
    case PushRead(v, pos) => PushRead(v, Word(pos))
    case PushTest(v, pos, seen) => PushTest(v, Word(pos), Word(seen))
    case PushMove(v, pos) => PushMove(v, Word(pos))
    case PushStore(v, pos) => PushStore(v, Word(pos))
    case PushDone(v, ticket) => PushDone(v, if ticket.Some? then Some(Word(ticket.value)) else None)
    case PopLoad => PopLoad
    case PopRead(pos) => PopRead(Word(pos))
    case PopTest(pos, seen) => PopTest(Word(pos), Word(seen))
    case PopMove(pos) => PopMove(Word(pos))
    case PopStore(pos, out) => PopStore(Word(pos), out)
    case PopDone(taken) => PopDone(if taken.Some? then Some(Taken(Word(taken.value.pos), taken.value.out)) else None)
  }

  function WrapThread(th: Thread): Thread {
    Thread(WrapPc(th.pc), th.line, th.looks)
  }

  function WrapCells(cells: seq<Cell>): (r: seq<Cell>)
    ensures |r| == |cells| && forall i :: 0 <= i < |r| ==> r[i] == WrapCell(cells[i])
  {
    seq(|cells|, i requires 0 <= i < |cells| => WrapCell(cells[i]))
  }

  function WrapThreads(threads: seq<Thread>): (r: seq<Thread>)
    ensures |r| == |threads| && forall i :: 0 <= i < |r| ==> r[i] == WrapThread(threads[i])
  {
    seq(|threads|, i requires 0 <= i < |threads| => WrapThread(threads[i]))
  }

  /** What the machine keeps of a state with tickets. */
  function Wrap(s: State): Words {
    Words(WrapCells(s.cells), Word(s.enq), Word(s.deq), WrapThreads(s.threads))
  }

  lemma WrapOneCell(cells: seq<Cell>, i: nat, c: Cell)
    requires i < |cells|
    ensures WrapCells(cells[i := c]) == WrapCells(cells)[i := WrapCell(c)]
  {}

  lemma WrapOneThread(threads: seq<Thread>, t: nat, th: Thread)
    requires t < |threads|
    ensures WrapThreads(threads[t := th]) == WrapThreads(threads)[t := WrapThread(th)]
  {}

  lemma WrapSet(s: State, t: nat, pc: Pc)
    requires t < |s.threads|
    ensures Wrap(s.Set(t, pc)) == Wrap(s).Set(t, WrapPc(pc))
  {
    WrapOneThread(s.threads, t, s.threads[t].(pc := pc));
  }

  lemma WordPlus(pos: nat, n: nat)
    ensures Plus(Word(pos), n) == Word(pos + n)
  {
    var q := pos / U64;
    assert pos + n == Word(pos) + n + q * U64;
    ModAddPeriod(Word(pos) + n, q, U64);
  }

  /** The ring has 2^k cells, at most 2^62 of them. */
  ghost predicate PowerOfTwo(n: nat) {
    exists k :: 0 <= k <= 62 && n == Pow2(k)
  }

  lemma IndexIsResidue(s: State, pos: nat)
    requires PowerOfTwo(|s.cells|)
    ensures |s.cells| >= 1 && Wrap(s).Index(Word(pos)) == pos % |s.cells|
  {
    var k :| 0 <= k <= 62 && |s.cells| == Pow2(k);
    WordKeepsCell(pos, k);
  }

  lemma SmallPower(n: nat)
    requires PowerOfTwo(n)
    ensures n < HALF
  {
    var k :| 0 <= k <= 62 && n == Pow2(k);
    Pow2Monotone(k, 62);
    Pow2Splits(62, 2);
    Pow2Of64();
    assert Pow2(2) == 4;
  }

  // ---------------------------------------------------------------- simulation

  /** The ticket a thread is about to compare is fewer than 2^63 tickets old. */
  ghost predicate Young(s: State, t: nat)
    requires t < |s.threads|
  {
    s.threads[t].pc.PushTest? || s.threads[t].pc.PopTest? ==>
      s.enq + |s.cells| < s.threads[t].pc.pos + HALF
  }

  ghost predicate Ready(s: State) {
    Inv(s) && SeenNear(s) && PowerOfTwo(|s.cells|)
  }

  lemma CallSimulated(s: State, w': Words, t: nat) returns (s': State)
    requires Ready(s) && t < |s.threads| && WordCall(Wrap(s), w', t)
    ensures Step(s, s', t) && Wrap(s') == w'
  {
    if w' == Wrap(s).Set(t, PopLoad) {
      s' := s.Set(t, PopLoad);
      WrapSet(s, t, PopLoad);
    } else {
      var v :| w' == Wrap(s).(threads := Wrap(s).threads[t := Wrap(s).threads[t].(pc := PushLoad(v), line := Some(v))]);
      s' := s.(threads := s.threads[t := s.threads[t].(pc := PushLoad(v), line := Some(v))]);
      WrapOneThread(s.threads, t, s.threads[t].(pc := PushLoad(v), line := Some(v)));
    }
    assert StepCall(s, s', t);
  }

  lemma LoadSimulated(s: State, w': Words, t: nat) returns (s': State)
    requires Ready(s) && t < |s.threads| && WordLoad(Wrap(s), w', t)
    ensures Step(s, s', t) && Wrap(s') == w'
  {
    var pc := if s.threads[t].pc.PushLoad? then PushRead(s.threads[t].pc.arg, s.enq) else PopRead(s.deq);
    s' := s.Set(t, pc);
    WrapSet(s, t, pc);
    assert StepLoad(s, s', t);
  }

  lemma ReadSimulated(s: State, w': Words, t: nat) returns (s': State)
    requires Ready(s) && t < |s.threads| && WordRead(Wrap(s), w', t)
    ensures Step(s, s', t) && Wrap(s') == w'
  {
    var pos := s.threads[t].pc.pos;
    IndexIsResidue(s, pos);
    var seen := s.At(pos).sequence;
    var pc := if s.threads[t].pc.PushRead? then PushTest(s.threads[t].pc.arg, pos, seen) else PopTest(pos, seen);
    s' := s.Look(t, pc);
    WrapOneThread(s.threads, t, s'.threads[t]);
    assert StepRead(s, s', t);
  }

  lemma Decides(s: State, t: nat)
    requires Ready(s) && t < |s.threads| && Young(s, t)
    requires s.threads[t].pc.PushTest? || s.threads[t].pc.PopTest?
    ensures DecidesAlike(s, s.threads[t].pc)
    ensures Plus(Word(s.threads[t].pc.pos), 1) == Word(s.threads[t].pc.pos + 1)
  {
    SmallPower(|s.cells|);
    YoungDecidesAlike(s, t);
    WordPlus(s.threads[t].pc.pos, 1);
  }

  lemma PushTestSimulated(s: State, w': Words, t: nat) returns (s': State)
    requires Ready(s) && t < |s.threads| && s.threads[t].pc.PushTest? && Young(s, t)
    requires WordTest(Wrap(s), w', t)
    ensures Step(s, s', t) && Wrap(s') == w'
  {
    var PushTest(v, pos, seen) := s.threads[t].pc;
    Decides(s, t);
    if seen != pos || w' == Wrap(s).Set(t, PushRead(v, Word(s.enq))) {
      var pc := if seen < pos then PushDone(v, None) else if seen > pos then PushLoad(v) else PushRead(v, s.enq);
      s' := s.Set(t, pc);
      WrapSet(s, t, pc);
      assert StepRetry(s, s', t);
    } else {
      s' := s.Set(t, PushMove(v, pos)).(enq := pos + 1, pushed := s.pushed + [v]);
      WrapSet(s, t, PushMove(v, pos));
      assert StepClaimPush(s, s', t);
    }
  }

  lemma PopTestSimulated(s: State, w': Words, t: nat) returns (s': State)
    requires Ready(s) && t < |s.threads| && s.threads[t].pc.PopTest? && Young(s, t)
    requires WordTest(Wrap(s), w', t)
    ensures Step(s, s', t) && Wrap(s') == w'
  {
    var PopTest(pos, seen) := s.threads[t].pc;
    Decides(s, t);
    if seen != pos + 1 || w' == Wrap(s).Set(t, PopRead(Word(s.deq))) {
      var pc := if seen < pos + 1 then PopDone(None) else if seen > pos + 1 then PopLoad else PopRead(s.deq);
      s' := s.Set(t, pc);
      WrapSet(s, t, pc);
      assert StepRetry(s, s', t);
    } else {
      s' := s.Set(t, PopMove(pos)).(deq := pos + 1, popped := s.popped + [None]);
      WrapSet(s, t, PopMove(pos));
      assert StepClaimPop(s, s', t);
    }
  }

  lemma PushMoveSimulated(s: State, w': Words, t: nat) returns (s': State)
    requires Ready(s) && t < |s.threads| && s.threads[t].pc.PushMove? && WordMove(Wrap(s), w', t)
    ensures Step(s, s', t) && Wrap(s') == w'
  {
    var PushMove(v, pos) := s.threads[t].pc;
    IndexIsResidue(s, pos);
    var c, th := s.At(pos).(data := s.threads[t].line), s.threads[t].(pc := PushStore(v, pos), line := None);
    s' := s.SetCell(pos, c).(threads := s.threads[t := th]);
    WrapOneCell(s.cells, pos % |s.cells|, c);
    WrapOneThread(s.threads, t, th);
    assert StepMove(s, s', t);
  }

  lemma PopMoveSimulated(s: State, w': Words, t: nat) returns (s': State)
    requires Ready(s) && t < |s.threads| && s.threads[t].pc.PopMove? && WordMove(Wrap(s), w', t)
    ensures Step(s, s', t) && Wrap(s') == w'
  {
    var pos := s.threads[t].pc.pos;
    IndexIsResidue(s, pos);
    assert ThreadInv(s, t);
    var out := s.At(pos).data.value;
    var c := s.At(pos).(data := None);
    s' := s.SetCell(pos, c).Set(t, PopStore(pos, out)).(popped := s.popped[pos := s.At(pos).data]);
    WrapOneCell(s.cells, pos % |s.cells|, c);
    WrapSet(s, t, PopStore(pos, out));
    assert StepMove(s, s', t);
  }

  lemma StoreSimulated(s: State, w': Words, t: nat) returns (s': State)
    requires Ready(s) && t < |s.threads| && WordStore(Wrap(s), w', t)
    ensures Step(s, s', t) && Wrap(s') == w'
  {
    var pc := s.threads[t].pc;
    var pos := pc.pos;
    IndexIsResidue(s, pos);
    var n := if pc.PushStore? then 1 else |s.cells|;
    var done := if pc.PushStore? then PushDone(pc.arg, Some(pos)) else PopDone(Some(Taken(pos, pc.out)));
    var c := s.At(pos).(sequence := pos + n);
    s' := s.SetCell(pos, c).Set(t, done);
    WordPlus(pos, n);
    WrapOneCell(s.cells, pos % |s.cells|, c);
    WrapSet(s, t, done);
    assert StepStore(s, s', t);
  }

  /** Every step of the machine is a step with tickets. */
  lemma StepSimulated(s: State, w': Words, t: nat) returns (s': State)
    requires Ready(s) && WordStep(Wrap(s), w', t) && t < |s.threads| && Young(s, t)
    ensures Step(s, s', t) && Wrap(s') == w' && Ready(s')
  {
    if WordCall(Wrap(s), w', t) {
      s' := CallSimulated(s, w', t);
    } else if WordLoad(Wrap(s), w', t) {
      s' := LoadSimulated(s, w', t);
    } else if WordRead(Wrap(s), w', t) {
      s' := ReadSimulated(s, w', t);
    } else if WordStore(Wrap(s), w', t) {
      s' := StoreSimulated(s, w', t);
    } else {
      s' := TestOrMoveSimulated(s, w', t);
    }
    StepKeepsInv(s, s', t);
    StepKeepsSeenNear(s, s', t);
    StepGrows(s, s', t);
  }

  lemma TestOrMoveSimulated(s: State, w': Words, t: nat) returns (s': State)
    requires Ready(s) && t < |s.threads| && Young(s, t)
    requires WordTest(Wrap(s), w', t) || WordMove(Wrap(s), w', t)
    ensures Step(s, s', t) && Wrap(s') == w'
  {
    match s.threads[t].pc
    case PushTest(_, _, _) => s' := PushTestSimulated(s, w', t);
    case PopTest(_, _) => s' := PopTestSimulated(s, w', t);
    case PushMove(_, _) => s' := PushMoveSimulated(s, w', t);
    case PopMove(_) => s' := PopMoveSimulated(s, w', t);
  }

  ghost predicate AllYoung(s: State) {
    forall t {:trigger s.threads[t]} :: 0 <= t < |s.threads| ==> Young(s, t)
  }

  /** run is what the words are the image of, up to its length. */
  ghost predicate Mirrors(run: seq<State>, words: seq<Words>) {
    1 <= |run| <= |words| && Run(run) && forall k :: 0 <= k < |run| ==> Wrap(run[k]) == words[k]
  }

  /** Every run of the machine from a new ring of 2^k cells is, step for step, the image of a run with
      unbounded tickets, however often the words wrap around, up to the first state, if any, in which
      some thread is about to compare a ticket that is 2^63 tickets old. */
  lemma {:induction false} WordRunsAreRuns(words: seq<Words>, s0: State) returns (run: seq<State>)
    requires WordRun(words) && Init(s0) && |s0.cells| >= 2 && PowerOfTwo(|s0.cells|) && words[0] == Wrap(s0)
    ensures Mirrors(run, words) && run[0] == s0 && Ready(run[|run| - 1])
    ensures |run| == |words| || !AllYoung(run[|run| - 1])
    decreases |words|
  {
    if |words| == 1 {
      run := [s0];
      InitInv(s0);
      FreshIsReady(s0);
    } else {
      var n := |words| - 1;
      var before := words[..n];
      PrefixRun(words, n);
      run := WordRunsAreRuns(before, s0);
      assert Mirrors(run, words);
      if |run| == n && AllYoung(run[n - 1]) {
        assert WordNext(words[n - 1], words[n]);
        run := OneMoreStep(run, words);
      }
    }
  }

  lemma PrefixRun(words: seq<Words>, n: nat)
    requires WordRun(words) && 1 <= n <= |words|
    ensures WordRun(words[..n])
  {
    forall k | 0 < k < n ensures WordNext(words[..n][k - 1], words[..n][k]) {
      assert WordNext(words[k - 1], words[k]);
    }
  }

  lemma FreshIsReady(s0: State)
    requires Init(s0) && Inv(s0) && PowerOfTwo(|s0.cells|)
    ensures Ready(s0)
  {
    forall t | 0 <= t < |s0.threads| ensures s0.threads[t].pc == Idle {}
  }

  lemma OneMoreStep(run: seq<State>, words: seq<Words>) returns (longer: seq<State>)
    requires |words| == |run| + 1 && Mirrors(run, words)
    requires Ready(run[|run| - 1]) && AllYoung(run[|run| - 1]) && WordNext(words[|run| - 1], words[|run|])
    ensures Mirrors(longer, words) && |longer| == |words| && longer[0] == run[0] && Ready(longer[|run|])
  {
    var s, w' := run[|run| - 1], words[|run|];
    var t: nat :| WordStep(Wrap(s), w', t);
    var s' := StepSimulated(s, w', t);
    longer := run + [s'];
    assert Next(s, s');
    forall k | 0 < k < |longer| ensures Next(longer[k - 1], longer[k]) {
      if k < |run| {
        assert Next(run[k - 1], run[k]);
      }
    }
  }
}

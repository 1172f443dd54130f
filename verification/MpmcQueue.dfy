/** The push and pop of src/logging.cc as code, with every other thread free to act between any
    two of its atomic accesses. The ghost field world is the transition system of MpmcRing; each
    access of the code is one step of it. */
module MpmcQueueCode {
  import opened Prelude
  import opened MpmcPromises
  import opened MpmcRing

  ghost predicate NextOther(s: State, s': State, t: nat) {
    exists u :: u != t && Step(s, s', u)
  }

  ghost predicate OthersRun(run: seq<State>, t: nat) {
    && |run| >= 1
    && forall k :: 0 < k < |run| ==> NextOther(run[k - 1], run[k], t)
  }

  /** Any number of steps of threads other than t. */
  ghost predicate OthersReach(s: State, s': State, t: nat) {
    exists run :: OthersRun(run, t) && run[0] == s && run[|run| - 1] == s'
  }

  lemma OthersReachIsReach(s: State, s': State, t: nat)
    requires OthersReach(s, s', t) && t < |s.threads|
    ensures Reaches(s, s') && |s'.threads| == |s.threads| && s'.threads[t] == s.threads[t]
  {
    var run :| OthersRun(run, t) && run[0] == s && run[|run| - 1] == s';
    forall k | 0 < k < |run| ensures Next(run[k - 1], run[k]) {
      assert NextOther(run[k - 1], run[k], t);
    }
    assert Run(run);
    OthersLeaveThread(run, t, |run| - 1);
  }

  lemma {:induction false} OthersLeaveThread(run: seq<State>, t: nat, k: nat)
    requires OthersRun(run, t) && t < |run[0].threads| && k < |run|
    ensures |run[k].threads| == |run[0].threads| && run[k].threads[t] == run[0].threads[t]
  {
    if k > 0 {
      OthersLeaveThread(run, t, k - 1);
      assert NextOther(run[k - 1], run[k], t);
    }
  }

  /** One more step of thread t at the end of a run. */
  lemma Advance(s: State, m: State, s': State, t: nat)
    requires Inv(s) && Reaches(s, m) && Inv(m) && Step(m, s', t)
    ensures Inv(s') && Reaches(s, s')
  {
    StepKeepsInv(m, s', t);
    ReachesStep(s, m, s', t);
  }

  lemma ReachesSelf(s: State)
    ensures Reaches(s, s)
  {
    assert Run([s]);
  }

  lemma ReachesGrows(s: State, s': State)
    requires Inv(s) && Reaches(s, s')
    ensures Inv(s') && s.enq <= s'.enq && s.deq <= s'.deq && s.pushed == s'.pushed[..s.enq]
    ensures |s'.cells| == |s.cells| && |s'.threads| == |s.threads|
  {
    var run :| Run(run) && run[0] == s && run[|run| - 1] == s';
    RunKeepsInv(run, |run| - 1);
  }

  /** Ticket p was claimed by a push of data. */
  ghost predicate Carries(s: State, p: nat, data: Line) {
    p < s.enq == |s.pushed| && s.pushed[p] == data
  }

  /** Ticket p was claimed by a push of data and by a pop that took it. */
  ghost predicate Delivered(s: State, p: nat, data: Line) {
    Carries(s, p, data) && p < s.deq == |s.popped| && s.popped[p] == Some(data)
  }

  lemma PushIsDone(s: State, t: nat, data: Line, p: nat)
    requires Inv(s) && t < |s.threads| && s.threads[t].pc == PushDone(data, Some(p))
    ensures Carries(s, p, data)
  {
    assert ThreadInv(s, t);
  }

  lemma PopIsDone(s: State, t: nat, data: Line, p: nat)
    requires Inv(s) && t < |s.threads| && s.threads[t].pc == PopDone(Some(Taken(p, data)))
    ensures Delivered(s, p, data)
  {
    assert ThreadInv(s, t);
  }

  /** The pop's last step: the cell waits for the ticket one round later. */
  function Freed(w: State, t: nat, pos: nat, data: Line): State
    requires t < |w.threads| && |w.cells| >= 1
  {
    w.SetCell(pos, w.At(pos).(sequence := pos + |w.cells|)).Set(t, PopDone(Some(Taken(pos, data))))
  }

  lemma PopFrees(s: State, w: State, w': State, t: nat, pos: nat, data: Line)
    requires Inv(s) && Reaches(s, w) && Inv(w) && t < |w.threads| && w.threads[t].pc == PopStore(pos, data)
    requires w' == Freed(w, t, pos, data)
    ensures Inv(w') && Reaches(s, w') && Delivered(w', pos, data)
    ensures w'.enq == w.enq && w'.deq == w.deq && |w'.cells| == |w.cells| > 0 && |w'.threads| == |w.threads|
    ensures w'.threads[t] == w.threads[t].(pc := PopDone(Some(Taken(pos, data))))
    ensures w'.cells == w.cells[pos % |w.cells| := w.cells[pos % |w.cells|].(sequence := pos + |w.cells|)]
  {
    assert StepStore(w, w', t);
    Advance(s, w, w', t);
    PopIsDone(w', t, data, pos);
  }

  /** A pusher that sees a later sequence than its ticket has been overtaken. */
  lemma PushOvertaken(s: State, pos: nat)
    requires Inv(s) && pos <= s.enq && s.At(pos).sequence > pos
    ensures pos < s.enq
  {
    var i, q := pos % |s.cells|, s.At(pos).sequence;
    assert CellInv(s, i);
    if q % |s.cells| == i && FreeFor(s, q) && pos >= s.enq {
      ModUnique(q, pos, |s.cells|);
    }
  }

  /** So has a popper that sees a later sequence than its ticket's line would have. */
  lemma PopOvertaken(s: State, pos: nat)
    requires Inv(s) && pos <= s.deq && s.At(pos).sequence > pos + 1
    ensures pos < s.deq
  {
    var i, q := pos % |s.cells|, s.At(pos).sequence;
    assert CellInv(s, i);
    if pos >= s.deq {
      if q % |s.cells| == i && FreeFor(s, q) {
        ModUnique(q, pos, |s.cells|);
      } else {
        ModUnique(q - 1, pos, |s.cells|);
      }
    }
  }

  /** The rounds in which the weak compare-exchange does not fail for no reason. */
  function Steady(flaky: seq<bool>): nat {
    if flaky == [] then 0 else Steady(flaky[..|flaky| - 1]) + (if flaky[|flaky| - 1] then 0 else 1)
  }

  lemma SteadyNext(flaky: seq<bool>, k: nat)
    requires k < |flaky|
    ensures Steady(flaky[..k + 1]) == Steady(flaky[..k]) + (if flaky[k] then 0 else 1)
  {
    assert flaky[..k + 1][..k] == flaky[..k];
  }

  class MpmcQueue {
    const cells: array<Cell>
    var enqueuePos: nat
    var dequeuePos: nat
    ghost var world: State

    /** The fields are what world says. */
    ghost predicate Shows()
      reads this, cells
    {
      cells[..] == world.cells && enqueuePos == world.enq && dequeuePos == world.deq
    }

    ghost predicate Valid()
      reads this, cells
    {
      Inv(world) && Shows()
    }

    ghost predicate Ready(t: nat)
      reads this
    {
      && t < |world.threads|
      && (world.threads[t].pc.Idle? || world.threads[t].pc.PushDone? || world.threads[t].pc.PopDone?)
    }

    /** n is the capacity after RoundUpToPowerOf2, threads the number of threads that will call. */
    constructor (n: nat, ghost threads: nat)
      requires n >= 2
      ensures Valid() && fresh(cells) && cells.Length == n
      ensures Init(world) && |world.threads| == threads
    {
      cells := new Cell[n](i requires 0 <= i => Cell(i, None));
      enqueuePos, dequeuePos := 0, 0;
      world := State(seq(n, i requires 0 <= i < n => Cell(i, None)), 0, 0,
                     seq(threads, i => Thread(Idle, None, 0)), [], []);
      new;
      InitInv(world);
    }

    /** Thread t is inside a call that began in state start and stands at th. */
    ghost predicate Inside(t: nat, start: State, th: Thread)
      reads this, cells
    {
      && Valid() && Inv(start) && Reaches(start, world)
      && t < |world.threads| && world.threads[t] == th
    }

    ghost predicate At(t: nat, pc: Pc, line: Option<Line>)
      reads this
    {
      t < |world.threads| && world.threads[t].pc == pc && world.threads[t].line == line
    }

    /** The loads of a sequence that thread t has made. */
    ghost function Looks(t: nat): nat
      reads this
    {
      if t < |world.threads| then world.threads[t].looks else 0
    }

    /** Thread t has finished a push of data under a ticket not below from; its string is moved from. */
    ghost predicate PushedSince(from: nat, t: nat, data: Line)
      reads this
    {
      exists p :: from <= p && Carries(world, p, data) && At(t, PushDone(data, Some(p)), None)
    }

    /** Thread t has finished a pop that took data under a ticket not below from. */
    ghost predicate PoppedSince(from: nat, t: nat, data: Line)
      reads this
    {
      exists p :: from <= p && Delivered(world, p, data)
                  && t < |world.threads| && world.threads[t].pc == PopDone(Some(Taken(p, data)))
    }

    /** Between start and now there was a moment at which the ring was full. */
    ghost predicate WasFull(start: State)
      reads this
    {
      exists m :: Reaches(start, m) && m.Full() && Reaches(m, world)
    }

    ghost predicate WasEmpty(start: State)
      reads this
    {
      exists m :: Reaches(start, m) && m.Empty() && Reaches(m, world)
    }

    /** The other threads: any number of their steps, and nothing else is promised. */
    method OtherThreads(ghost t: nat)
      requires Shows()
      modifies this, cells
      ensures Shows() && OthersReach(old(world), world, t)
    {
      assert OthersRun([world], t);
    }

    /** What follows for thread t from the other threads' steps. */
    method Interfere(ghost t: nat, ghost start: State)
      requires Valid() && t < |world.threads| && Inv(start) && Reaches(start, world)
      modifies this, cells
      ensures Inside(t, start, old(world.threads[t]))
      ensures old(enqueuePos) <= enqueuePos && old(dequeuePos) <= dequeuePos
    {
      ghost var w := world;
      OtherThreads(t);
      OthersReachIsReach(w, world, t);
      ReachesGrows(w, world);
      ReachesTrans(start, w, world);
    }

    /** A step that leaves the shared fields alone. */
    ghost method Local(t: nat, start: State, s': State)
      requires Valid() && Inv(start) && Reaches(start, world) && Step(world, s', t)
      requires s' == world.(threads := s'.threads) && |s'.threads| == |world.threads|
      modifies `world
      ensures world == s' && Inside(t, start, s'.threads[t])
    {
      Advance(start, world, s', t);
      world := s';
    }

    // ---- push, one atomic access at a time

    method PushLoadPosition(t: nat, ghost start: State, ghost n: nat, data: Line) returns (pos: nat)
      requires Inside(t, start, Thread(PushLoad(data), Some(data), n))
      modifies this, cells
      ensures Inside(t, start, Thread(PushRead(data, pos), Some(data), n))
      ensures old(enqueuePos) <= pos
    {
      Interfere(t, start);
      pos := enqueuePos;
      assert StepLoad(world, world.Set(t, PushRead(data, pos)), t);
      Local(t, start, world.Set(t, PushRead(data, pos)));
    }

    method PushReadSequence(t: nat, ghost start: State, ghost n: nat, data: Line, pos: nat) returns (seen: nat)
      requires Inside(t, start, Thread(PushRead(data, pos), Some(data), n))
      modifies this, cells
      ensures Inside(t, start, Thread(PushTest(data, pos, seen), Some(data), n + 1))
      ensures seen < pos ==> WasFull(start)
      ensures seen > pos ==> pos < enqueuePos
    {
      Interfere(t, start);
      ghost var m := world;
      assert ThreadInv(m, t);
      seen := cells[pos % cells.Length].sequence;
      ghost var m' := m.Look(t, PushTest(data, pos, seen));
      assert StepRead(m, m', t);
      PushFailsIffFull(m, m', t);
      if seen > pos {
        PushOvertaken(m, pos);
      }
      Local(t, start, m');
      ReachesSelf(m);
      ReachesStep(m, m, m', t);
    }

    /** The weak compare-exchange; on failure the current position is in now. */
    method PushCas(t: nat, ghost start: State, ghost n: nat, data: Line, pos: nat, spurious: bool)
      returns (won: bool, now: nat)
      requires Inside(t, start, Thread(PushTest(data, pos, pos), Some(data), n))
      modifies this, cells
      ensures won ==> start.enq <= pos && Inside(t, start, Thread(PushMove(data, pos), Some(data), n))
      ensures !won ==> Inside(t, start, Thread(PushRead(data, now), Some(data), n))
      ensures !won ==> pos <= now && (spurious || pos < now)
    {
      Interfere(t, start);
      assert ThreadInv(world, t);
      now := enqueuePos;
      won := enqueuePos == pos && !spurious;
      ghost var w := world;
      if won {
        ReachesGrows(start, w);
        enqueuePos := pos + 1;
        world := w.Set(t, PushMove(data, pos)).(enq := pos + 1, pushed := w.pushed + [data]);
        assert StepClaimPush(w, world, t);
        Advance(start, w, world, t);
      } else {
        assert StepRetry(w, w.Set(t, PushRead(data, now)), t);
        Local(t, start, w.Set(t, PushRead(data, now)));
      }
    }

    method PushMoveLine(t: nat, ghost start: State, ghost n: nat, data: Line, pos: nat)
      requires Inside(t, start, Thread(PushMove(data, pos), Some(data), n))
      modifies this, cells
      ensures Inside(t, start, Thread(PushStore(data, pos), None, n))
    {
      Interfere(t, start);
      ghost var w := world;
      var i := pos % cells.Length;
      cells[i] := cells[i].(data := Some(data));
      world := w.SetCell(pos, w.At(pos).(data := Some(data)))
                .(threads := w.threads[t := Thread(PushStore(data, pos), None, n)]);
      assert StepMove(w, world, t);
      Advance(start, w, world, t);
    }

    method PushStoreSequence(t: nat, ghost start: State, ghost n: nat, data: Line, pos: nat)
      requires Inside(t, start, Thread(PushStore(data, pos), None, n))
      modifies this, cells
      ensures Inside(t, start, Thread(PushDone(data, Some(pos)), None, n))
      ensures Carries(world, pos, data)
    {
      Interfere(t, start);
      ghost var w := world;
      ghost var published := w.SetCell(pos, w.At(pos).(sequence := pos + 1)).Set(t, PushDone(data, Some(pos)));
      assert StepStore(w, published, t);
      Advance(start, w, published, t);
      PushIsDone(published, t, data, pos);
      var i := pos % cells.Length;
      cells[i] := cells[i].(sequence := pos + 1);
      world := published;
    }

    /** push. flaky bounds the rounds of the retry loop, which has no bound in the code, and says in which
        of them the weak compare-exchange fails for no reason. None means the loop is still going round
        after that many loads of a sequence; then in every round that was not flaky another thread has
        claimed a ticket. */
    method Push(t: nat, data: Line, flaky: seq<bool>) returns (ok: Option<bool>, line: Option<Line>)
      requires Valid() && Ready(t)
      modifies this, cells
      ensures Valid() && Reaches(old(world), world)
      ensures ok == Some(true) ==> line == None
      ensures ok == Some(true) ==> PushedSince(old(enqueuePos), t, data)
      ensures ok == Some(false) ==> line == Some(data) && At(t, PushDone(data, None), Some(data))
      ensures ok == None ==> line == Some(data) && exists p :: At(t, PushRead(data, p), Some(data))
      ensures ok == None ==> Looks(t) == old(Looks(t)) + |flaky|
      ensures ok == None ==> enqueuePos >= old(enqueuePos) + Steady(flaky)
      ensures ok == Some(false) ==> WasFull(old(world))
    {
      ghost var start, n := world, Looks(t);
      PushCall(t, data);
      line := Some(data);
      var pos := PushLoadPosition(t, start, n, data);
      for k := 0 to |flaky|
        invariant line == Some(data)
        invariant Inside(t, start, Thread(PushRead(data, pos), Some(data), n + k))
        invariant start.enq + Steady(flaky[..k]) <= pos
      {
        SteadyNext(flaky, k);
        var done, won;
        done, won, pos := PushRound(t, start, n + k, data, pos, flaky[k]);
        if done {
          return Some(won), if won then None else line;
        }
      }
      assert flaky[..|flaky|] == flaky && ThreadInv(world, t);
      ok := None;
    }

    ghost method PushCall(t: nat, data: Line)
      requires Valid() && Ready(t)
      modifies `world
      ensures Inv(old(world)) && Inside(t, old(world), Thread(PushLoad(data), Some(data), old(Looks(t))))
    {
      ghost var start := world;
      ReachesSelf(start);
      ghost var called := start.(threads := start.threads[t := Thread(PushLoad(data), Some(data), Looks(t))]);
      assert StepCall(start, called, t);
      Local(t, start, called);
    }

    /** One turn of the loop of push, which goes round again unless it is done. */
    method PushRound(t: nat, ghost start: State, ghost n: nat, data: Line, pos: nat, spurious: bool)
      returns (done: bool, won: bool, next: nat)
      requires Inside(t, start, Thread(PushRead(data, pos), Some(data), n))
      modifies this, cells
      ensures Valid() && Reaches(start, world)
      ensures !done ==> Inside(t, start, Thread(PushRead(data, next), Some(data), n + 1))
      ensures !done ==> pos <= next && (spurious || pos < next)
      ensures done && won ==> PushedSince(start.enq, t, data)
      ensures done && !won ==> At(t, PushDone(data, None), Some(data)) && WasFull(start)
    {
      done, won, next := false, false, pos;
      var seen := PushReadSequence(t, start, n, data, pos);
      if seen < pos {
        PushGiveUp(t, start, n + 1, data, pos, seen);
        done := true;
      } else if seen > pos {
        next := PushReload(t, start, n + 1, data, pos, seen);
      } else {
        won, next := PushPut(t, start, n + 1, data, pos, spurious);
        done := won;
      }
    }

    /** Another thread was faster: start over. */
    method PushReload(t: nat, ghost start: State, ghost n: nat, data: Line, was: nat, seen: nat) returns (pos: nat)
      requires Inside(t, start, Thread(PushTest(data, was, seen), Some(data), n)) && seen > was
      requires was < enqueuePos
      modifies this, cells
      ensures Inside(t, start, Thread(PushRead(data, pos), Some(data), n))
      ensures was < pos
    {
      ghost var again := world.Set(t, PushLoad(data));
      assert StepRetry(world, again, t);
      Local(t, start, again);
      pos := PushLoadPosition(t, start, n, data);
    }

    /** The round that finds the cell free: claim the ticket, and if that works publish the line. */
    method PushPut(t: nat, ghost start: State, ghost n: nat, data: Line, pos: nat, spurious: bool)
      returns (won: bool, now: nat)
      requires Inside(t, start, Thread(PushTest(data, pos, pos), Some(data), n))
      modifies this, cells
      ensures won ==> Inside(t, start, Thread(PushDone(data, Some(pos)), None, n))
      ensures won ==> PushedSince(start.enq, t, data)
      ensures !won ==> Inside(t, start, Thread(PushRead(data, now), Some(data), n))
      ensures !won ==> pos <= now && (spurious || pos < now)
    {
      won, now := PushCas(t, start, n, data, pos, spurious);
      if won {
        PushMoveLine(t, start, n, data, pos);
        PushStoreSequence(t, start, n, data, pos);
      }
    }

    ghost method PushGiveUp(t: nat, start: State, n: nat, data: Line, pos: nat, seen: nat)
      requires Inside(t, start, Thread(PushTest(data, pos, seen), Some(data), n)) && seen < pos
      requires WasFull(start)
      modifies `world
      ensures Inside(t, start, Thread(PushDone(data, None), Some(data), n))
      ensures WasFull(start)
    {
      ghost var m :| Reaches(start, m) && m.Full() && Reaches(m, world);
      ghost var done := world.Set(t, PushDone(data, None));
      assert StepRetry(world, done, t);
      ReachesStep(m, world, done, t);
      Local(t, start, done);
    }

    // ---- pop, one atomic access at a time

    method PopLoadPosition(t: nat, ghost start: State, ghost n: nat, ghost line: Option<Line>) returns (pos: nat)
      requires Inside(t, start, Thread(PopLoad, line, n))
      modifies this, cells
      ensures Inside(t, start, Thread(PopRead(pos), line, n))
      ensures old(dequeuePos) <= pos
    {
      Interfere(t, start);
      pos := dequeuePos;
      assert StepLoad(world, world.Set(t, PopRead(pos)), t);
      Local(t, start, world.Set(t, PopRead(pos)));
    }

    method PopReadSequence(t: nat, ghost start: State, ghost n: nat, ghost line: Option<Line>, pos: nat)
      returns (seen: nat)
      requires Inside(t, start, Thread(PopRead(pos), line, n))
      modifies this, cells
      ensures Inside(t, start, Thread(PopTest(pos, seen), line, n + 1))
      ensures seen < pos + 1 ==> WasEmpty(start)
      ensures seen > pos + 1 ==> pos < dequeuePos
    {
      Interfere(t, start);
      ghost var m := world;
      assert ThreadInv(m, t);
      seen := cells[pos % cells.Length].sequence;
      ghost var m' := m.Look(t, PopTest(pos, seen));
      assert StepRead(m, m', t);
      PopFailsIffEmpty(m, m', t);
      if seen > pos + 1 {
        PopOvertaken(m, pos);
      }
      Local(t, start, m');
      ReachesSelf(m);
      ReachesStep(m, m, m', t);
    }

    method PopCas(t: nat, ghost start: State, ghost n: nat, ghost line: Option<Line>, pos: nat, spurious: bool)
      returns (won: bool, now: nat)
      requires Inside(t, start, Thread(PopTest(pos, pos + 1), line, n))
      modifies this, cells
      ensures won ==> start.deq <= pos && Inside(t, start, Thread(PopMove(pos), line, n))
      ensures !won ==> Inside(t, start, Thread(PopRead(now), line, n))
      ensures !won ==> pos <= now && (spurious || pos < now)
    {
      Interfere(t, start);
      assert ThreadInv(world, t);
      now := dequeuePos;
      won := dequeuePos == pos && !spurious;
      ghost var w := world;
      if won {
        ReachesGrows(start, w);
        dequeuePos := pos + 1;
        world := w.Set(t, PopMove(pos)).(deq := pos + 1, popped := w.popped + [None]);
        assert StepClaimPop(w, world, t);
        Advance(start, w, world, t);
      } else {
        assert StepRetry(w, w.Set(t, PopRead(now)), t);
        Local(t, start, w.Set(t, PopRead(now)));
      }
    }

    method PopMoveLine(t: nat, ghost start: State, ghost n: nat, ghost line: Option<Line>, pos: nat)
      returns (data: Line)
      requires Inside(t, start, Thread(PopMove(pos), line, n))
      modifies this, cells
      ensures Inside(t, start, Thread(PopStore(pos, data), line, n))
    {
      Interfere(t, start);
      ghost var w := world;
      assert ThreadInv(w, t);
      var i := pos % cells.Length;
      data := cells[i].data.value;
      cells[i] := cells[i].(data := None);
      world := w.SetCell(pos, w.At(pos).(data := None)).Set(t, PopStore(pos, data))
                .(popped := w.popped[pos := Some(data)]);
      assert StepMove(w, world, t);
      Advance(start, w, world, t);
    }

    method PopStoreSequence(t: nat, ghost start: State, ghost n: nat, ghost line: Option<Line>, pos: nat, data: Line)
      requires Inside(t, start, Thread(PopStore(pos, data), line, n))
      modifies this, cells
      ensures Inside(t, start, Thread(PopDone(Some(Taken(pos, data))), line, n))
      ensures Delivered(world, pos, data)
    {
      Interfere(t, start);
      ghost var freed := Freed(world, t, pos, data);
      PopFrees(start, world, freed, t, pos, data);
      FreeCell(pos, freed);
      world := freed;
    }

    /** The store that gives the cell of ticket pos back. */
    method FreeCell(pos: nat, ghost freed: State)
      requires Shows() && cells.Length > 0 && |freed.cells| == cells.Length
      requires freed.cells ==
        world.cells[pos % cells.Length := world.cells[pos % cells.Length].(sequence := pos + cells.Length)]
      modifies cells
      ensures cells[..] == freed.cells
    {
      var i := pos % cells.Length;
      cells[i] := cells[i].(sequence := pos + cells.Length);
    }

    /** pop, with flaky as for push. */
    method Pop(t: nat, flaky: seq<bool>) returns (ok: Option<bool>, data: Line)
      requires Valid() && Ready(t)
      modifies this, cells
      ensures Valid() && Reaches(old(world), world)
      ensures ok == Some(true) ==> PoppedSince(old(dequeuePos), t, data)
      ensures ok == Some(false) ==> t < |world.threads| && world.threads[t].pc == PopDone(None)
      ensures ok == None ==> t < |world.threads| && world.threads[t].pc.PopRead?
      ensures ok == None ==> Looks(t) == old(Looks(t)) + |flaky|
      ensures ok == None ==> dequeuePos >= old(dequeuePos) + Steady(flaky)
      ensures ok == Some(false) ==> WasEmpty(old(world))
    {
      ghost var start := world;
      ghost var line, n := start.threads[t].line, Looks(t);
      data := "";
      PopCall(t);
      var pos := PopLoadPosition(t, start, n, line);
      for k := 0 to |flaky|
        invariant Inside(t, start, Thread(PopRead(pos), line, n + k))
        invariant start.deq + Steady(flaky[..k]) <= pos
      {
        SteadyNext(flaky, k);
        var done, won;
        done, won, pos, data := PopRound(t, start, n + k, line, pos, flaky[k]);
        if done {
          return Some(won), data;
        }
      }
      assert flaky[..|flaky|] == flaky && ThreadInv(world, t);
      ok := None;
    }

    /** One turn of the loop of pop, which goes round again unless it is done. */
    method PopRound(t: nat, ghost start: State, ghost n: nat, ghost line: Option<Line>, pos: nat, spurious: bool)
      returns (done: bool, won: bool, next: nat, data: Line)
      requires Inside(t, start, Thread(PopRead(pos), line, n))
      modifies this, cells
      ensures Valid() && Reaches(start, world) && t < |world.threads|
      ensures !done ==> Inside(t, start, Thread(PopRead(next), line, n + 1))
      ensures !done ==> pos <= next && (spurious || pos < next)
      ensures done && won ==> PoppedSince(start.deq, t, data)
      ensures done && !won ==> world.threads[t].pc == PopDone(None) && WasEmpty(start)
    {
      done, won, next, data := false, false, pos, "";
      var seen := PopReadSequence(t, start, n, line, pos);
      if seen < pos + 1 {
        PopGiveUp(t, start, n + 1, line, pos, seen);
        done := true;
      } else if seen > pos + 1 {
        next := PopReload(t, start, n + 1, line, pos, seen);
      } else {
        won, next, data := PopTake(t, start, n + 1, line, pos, spurious);
        done := won;
      }
    }

    ghost method PopCall(t: nat)
      requires Valid() && Ready(t)
      modifies `world
      ensures Inv(old(world)) && Inside(t, old(world), Thread(PopLoad, old(world).threads[t].line, old(Looks(t))))
    {
      ghost var start := world;
      ReachesSelf(start);
      assert StepCall(start, start.Set(t, PopLoad), t);
      Local(t, start, start.Set(t, PopLoad));
    }

    method PopReload(t: nat, ghost start: State, ghost n: nat, ghost line: Option<Line>, was: nat, seen: nat)
      returns (pos: nat)
      requires Inside(t, start, Thread(PopTest(was, seen), line, n)) && seen > was + 1
      requires was < dequeuePos
      modifies this, cells
      ensures Inside(t, start, Thread(PopRead(pos), line, n))
      ensures was < pos
    {
      ghost var again := world.Set(t, PopLoad);
      assert StepRetry(world, again, t);
      Local(t, start, again);
      pos := PopLoadPosition(t, start, n, line);
    }

    /** The round that finds the cell published: claim the ticket, and if that works take the line. */
    method PopTake(t: nat, ghost start: State, ghost n: nat, ghost line: Option<Line>, pos: nat, spurious: bool)
      returns (won: bool, now: nat, data: Line)
      requires Inside(t, start, Thread(PopTest(pos, pos + 1), line, n))
      modifies this, cells
      ensures won ==> Inside(t, start, Thread(PopDone(Some(Taken(pos, data))), line, n))
      ensures won ==> PoppedSince(start.deq, t, data)
      ensures !won ==> Inside(t, start, Thread(PopRead(now), line, n))
      ensures !won ==> pos <= now && (spurious || pos < now)
    {
      data := "";
      won, now := PopCas(t, start, n, line, pos, spurious);
      if won {
        data := PopMoveLine(t, start, n, line, pos);
        PopStoreSequence(t, start, n, line, pos, data);
      }
    }

    ghost method PopGiveUp(t: nat, start: State, n: nat, line: Option<Line>, pos: nat, seen: nat)
      requires Inside(t, start, Thread(PopTest(pos, seen), line, n)) && seen < pos + 1
      requires WasEmpty(start)
      modifies `world
      ensures Inside(t, start, Thread(PopDone(None), line, n))
      ensures WasEmpty(start)
    {
      ghost var m :| Reaches(start, m) && m.Empty() && Reaches(m, world);
      ghost var done := world.Set(t, PopDone(None));
      assert StepRetry(world, done, t);
      ReachesStep(m, world, done, t);
      Local(t, start, done);
    }
  }
}

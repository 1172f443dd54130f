/** QueueInLoop, Quit, HandleWakeup and DoPendingTasks of src/event_loop.cc as code. Other threads
    act between any two accesses of shared state; world is the transition system of
    EventLoopMachine, and every access of the code is one step of it. */
module EventLoopCode {
  import opened EventLoopMachine

  ghost predicate Steps(run: seq<State>) {
    && |run| >= 1
    && forall k :: 0 < k < |run| ==> Next(run[k - 1], run[k])
  }

  ghost predicate Reaches(s: State, s': State) {
    exists run :: Steps(run) && run[0] == s && run[|run| - 1] == s'
  }

  lemma ReachesSelf(s: State)
    ensures Reaches(s, s)
  {
    assert Steps([s]);
  }

  lemma Advance(s: State, m: State, s': State)
    requires Reaches(s, m) && Inv(m) && Next(m, s')
    ensures Reaches(s, s') && Inv(s')
  {
    var run :| Steps(run) && run[0] == s && run[|run| - 1] == m;
    var longer := run + [s'];
    forall k | 0 < k < |longer| ensures Next(longer[k - 1], longer[k]) {
      if k < |run| {
        assert Next(run[k - 1], run[k]);
      }
    }
    assert Steps(longer);
    NextKeepsInv(m, s');
  }

  lemma ReachesJoin(s: State, m: State, s': State)
    requires Reaches(s, m) && Reaches(m, s')
    ensures Reaches(s, s')
  {
    var a :| Steps(a) && a[0] == s && a[|a| - 1] == m;
    var b :| Steps(b) && b[0] == m && b[|b| - 1] == s';
    var run := a + b[1..];
    forall k | 0 < k < |run| ensures Next(run[k - 1], run[k]) {
      if k < |a| {
        assert Next(a[k - 1], a[k]);
      } else {
        assert Next(b[k - |a|], b[k - |a| + 1]);
      }
    }
    assert Steps(run);
  }

  /** The queue history is only ever extended, and a request to quit is never taken back. */
  lemma {:induction false} HistoryGrows(run: seq<State>, k: nat)
    requires Steps(run) && k < |run|
    ensures run[0].enqueued <= run[k].enqueued && (run[0].quit ==> run[k].quit)
  {
    if k > 0 {
      HistoryGrows(run, k - 1);
      assert Next(run[k - 1], run[k]);
      NextGrows(run[k - 1], run[k]);
    }
  }

  lemma CallGrows(s: State, s': State, u: nat)
    requires StepCall(s, s', u)
    ensures s.enqueued <= s'.enqueued && (s.quit ==> s'.quit)
  {}

  lemma LoopGrows(s: State, s': State)
    requires StepLoop(s, s')
    ensures s'.enqueued == s.enqueued && s'.quit == s.quit
  {}

  lemma NextGrows(s: State, s': State)
    requires Next(s, s')
    ensures s.enqueued <= s'.enqueued && (s.quit ==> s'.quit)
  {
    if StepLoop(s, s') {
      LoopGrows(s, s');
    } else {
      var u :| StepCall(s, s', u);
      CallGrows(s, s', u);
    }
  }

  lemma {:induction false} StepsKeepInv(run: seq<State>, k: nat)
    requires Steps(run) && Inv(run[0]) && k < |run|
    ensures Inv(run[k])
  {
    if k > 0 {
      StepsKeepInv(run, k - 1);
      assert Next(run[k - 1], run[k]);
      NextKeepsInv(run[k - 1], run[k]);
    }
  }

  lemma ReachesInv(s: State, s': State)
    requires Reaches(s, s') && Inv(s)
    ensures Inv(s')
  {
    var run :| Steps(run) && run[0] == s && run[|run| - 1] == s';
    StepsKeepInv(run, |run| - 1);
  }

  // ---------------------------------------------------------------- other threads

  /** A step of a thread other than t; thread 0 also runs the loop. */
  ghost predicate OtherStep(s: State, s': State, t: nat) {
    (exists u :: u != t && StepCall(s, s', u)) || (t != 0 && StepLoop(s, s'))
  }

  ghost predicate OthersRun(run: seq<State>, t: nat) {
    && |run| >= 1
    && forall k :: 0 < k < |run| ==> OtherStep(run[k - 1], run[k], t)
  }

  /** Any number of steps of threads other than t. */
  ghost predicate OthersReach(s: State, s': State, t: nat) {
    exists run :: OthersRun(run, t) && run[0] == s && run[|run| - 1] == s'
  }

  /** What they leave alone: t's own call, and, when t runs the loop, all that only the loop thread
      touches. */
  ghost predicate Undisturbed(s: State, s': State, t: nat) {
    && t < |s.calls| == |s'.calls| && s'.calls[t] == s.calls[t]
    && (t == 0 ==> LoopUntouched(s, s'))
  }

  ghost predicate LoopUntouched(s: State, s': State) {
    && s'.loop == s.loop && s'.buffer == s.buffer && s'.calling == s.calling
    && s'.executed == s.executed && s'.counter >= s.counter
  }

  lemma CallLeavesLoop(s: State, s': State, u: nat)
    requires StepCall(s, s', u)
    ensures LoopUntouched(s, s') && |s'.calls| == |s.calls|
    ensures forall t :: 0 <= t < |s.calls| && t != u ==> s'.calls[t] == s.calls[t]
  {}

  lemma OtherStepUndisturbs(s: State, s': State, t: nat)
    requires OtherStep(s, s', t) && t < |s.calls|
    ensures Undisturbed(s, s', t) && Next(s, s')
  {
    if u :| u != t && StepCall(s, s', u) {
      CallLeavesLoop(s, s', u);
    }
  }

  lemma {:induction false} OthersRunUndisturbs(run: seq<State>, t: nat, k: nat)
    requires OthersRun(run, t) && t < |run[0].calls| && k < |run|
    ensures Undisturbed(run[0], run[k], t)
  {
    if k > 0 {
      OthersRunUndisturbs(run, t, k - 1);
      assert OtherStep(run[k - 1], run[k], t);
      OtherStepUndisturbs(run[k - 1], run[k], t);
    }
  }

  /** Steps of the other threads are a run of the machine that leaves t undisturbed. */
  lemma OthersLeaveAlone(s: State, s': State, t: nat)
    requires OthersReach(s, s', t) && t < |s.calls|
    ensures Reaches(s, s') && Undisturbed(s, s', t)
  {
    var run :| OthersRun(run, t) && run[0] == s && run[|run| - 1] == s';
    forall k | 0 < k < |run| ensures Next(run[k - 1], run[k]) {
      OthersRunUndisturbs(run, t, k - 1);
      assert OtherStep(run[k - 1], run[k], t);
      OtherStepUndisturbs(run[k - 1], run[k], t);
    }
    assert Steps(run);
    OthersRunUndisturbs(run, t, |run| - 1);
  }

  // ---------------------------------------------------------------- user code on the loop thread

  /** A step inside a call of QueueInLoop or Quit, of whatever thread. */
  ghost predicate AnyCall(s: State, s': State) {
    exists u :: StepCall(s, s', u)
  }

  ghost predicate CallsRun(run: seq<State>) {
    && |run| >= 1
    && forall k :: 0 < k < |run| ==> AnyCall(run[k - 1], run[k])
  }

  ghost predicate CallsReach(s: State, s': State) {
    exists run :: CallsRun(run) && run[0] == s && run[|run| - 1] == s'
  }

  lemma {:induction false} CallsRunLeavesLoop(run: seq<State>, k: nat)
    requires CallsRun(run) && k < |run|
    ensures LoopUntouched(run[0], run[k]) && |run[k].calls| == |run[0].calls|
  {
    if k > 0 {
      CallsRunLeavesLoop(run, k - 1);
      assert AnyCall(run[k - 1], run[k]);
      var u :| StepCall(run[k - 1], run[k], u);
      CallLeavesLoop(run[k - 1], run[k], u);
    }
  }

  /** Calls, the loop thread's own among them, are a run of the machine that leaves the loop where it
      is. */
  lemma CallsLeaveLoop(s: State, s': State)
    requires CallsReach(s, s')
    ensures Reaches(s, s') && LoopUntouched(s, s') && |s'.calls| == |s.calls|
  {
    var run :| CallsRun(run) && run[0] == s && run[|run| - 1] == s';
    forall k | 0 < k < |run| ensures Next(run[k - 1], run[k]) {
      assert AnyCall(run[k - 1], run[k]);
    }
    assert Steps(run);
    CallsRunLeavesLoop(run, |run| - 1);
  }

  class EventLoop {
    var pendingTasks: seq<Task>
    var pendingBuffer: seq<Task>
    var wakeupCounter: nat
    var wakeupPending: bool
    var callingPending: bool
    var quit: bool
    ghost var world: State

    /** The fields are what world says. */
    ghost predicate Shows()
      reads this
    {
      && pendingTasks == world.pending && pendingBuffer == world.buffer
      && wakeupCounter == world.counter && wakeupPending == world.flag
      && callingPending == world.calling && quit == world.quit
    }

    ghost predicate Valid()
      reads this
    {
      Inv(world) && Shows()
    }

    constructor (ghost threads: nat)
      requires threads >= 1
      ensures Valid() && Init(world) && |world.calls| == threads
    {
      pendingTasks, pendingBuffer, wakeupCounter := [], [], 0;
      wakeupPending, callingPending, quit := false, false, false;
      world := State([], [], 0, false, false, false, CheckQuit, seq(threads, i => NoCall), [], []);
    }

    /** Thread t is inside something it began in state start. */
    ghost predicate Inside(t: nat, start: State)
      reads this
    {
      Valid() && Reaches(start, world) && t < |world.calls|
    }

    /** The other threads: any number of their steps, and nothing else is promised. */
    method OtherThreads(ghost t: nat)
      requires Shows()
      modifies this
      ensures Shows() && OthersReach(old(world), world, t)
    {
      assert OthersRun([world], t);
    }

    /** What follows for thread t from the other threads' steps. */
    method Interfere(ghost t: nat, ghost start: State)
      requires Inside(t, start)
      modifies this
      ensures Inside(t, start) && Undisturbed(old(world), world, t)
    {
      ghost var w := world;
      OtherThreads(t);
      OthersLeaveAlone(w, world, t);
      ReachesInv(w, world);
      ReachesJoin(start, w, world);
    }

    /** Bring the ghost state to s', which the fields already show. */
    ghost method Record(t: nat, start: State, s': State)
      requires Inv(world) && Reaches(start, world) && Next(world, s')
      requires pendingTasks == s'.pending && pendingBuffer == s'.buffer
      requires wakeupCounter == s'.counter && wakeupPending == s'.flag
      requires callingPending == s'.calling && quit == s'.quit
      requires t < |s'.calls|
      modifies `world
      ensures world == s' && Inside(t, start)
    {
      Advance(start, world, s');
      world := s';
    }

    method Append(t: nat, ghost start: State, task: Task)
      requires Inside(t, start) && world.calls[t] == AtPush(task)
      modifies this
      ensures Inside(t, start)
      ensures world.calls[t] == if t != 0 || callingPending then AtCas else NoCall
      ensures |start.enqueued| <= |world.enqueued| - 1 && world.enqueued[|world.enqueued| - 1] == task
      ensures t == 0 ==> Undisturbed(old(world).(calls := world.calls), world, 0)
    {
      Interfere(t, start);
      ghost var run :| Steps(run) && run[0] == start && run[|run| - 1] == world;
      HistoryGrows(run, |run| - 1);
      pendingTasks := pendingTasks + [task];
      ghost var w := world;
      ghost var s' := w.(pending := w.pending + [task], enqueued := w.enqueued + [task],
                         calls := w.calls[t := if t != 0 || w.calling then AtCas else NoCall]);
      assert StepPush(w, s', t);
      assert StepCall(w, s', t);
      Record(t, start, s');
    }

    method CasWakeup(t: nat, ghost start: State) returns (won: bool)
      requires Inside(t, start) && world.calls[t] == AtCas
      modifies this
      ensures Inside(t, start) && world.calls[t] == if won then AtWrite else NoCall
      ensures wakeupPending
      ensures t == 0 ==> Undisturbed(old(world).(calls := world.calls), world, 0)
    {
      Interfere(t, start);
      ghost var w := world;
      won := !wakeupPending;
      wakeupPending := true;
      ghost var s' := if w.flag then w.(calls := w.calls[t := NoCall])
                      else w.(flag := true, calls := w.calls[t := AtWrite]);
      assert StepCas(w, s', t);
      assert StepCall(w, s', t);
      Record(t, start, s');
    }

    method Wakeup(t: nat, ghost start: State)
      requires Inside(t, start) && world.calls[t] == AtWrite
      modifies this
      ensures Inside(t, start) && world.calls[t] == NoCall && wakeupCounter > 0 && (start.quit ==> quit)
      ensures t == 0 ==> Undisturbed(old(world).(calls := world.calls), world, 0)
    {
      Interfere(t, start);
      ghost var run :| Steps(run) && run[0] == start && run[|run| - 1] == world;
      HistoryGrows(run, |run| - 1);
      ghost var w := world;
      wakeupCounter := wakeupCounter + 1;
      ghost var s' := w.(counter := w.counter + 1, calls := w.calls[t := NoCall]);
      assert StepWrite(w, s', t);
      assert StepCall(w, s', t);
      Record(t, start, s');
    }

    /** Any thread may queue; the loop thread does so from user code. When the call returns the task
        has its place in the queue order and, by the invariant, its wake-up is provided for. */
    method QueueInLoop(t: nat, task: Task)
      requires Valid() && t < |world.calls| && world.calls[t] == NoCall
      requires t == 0 ==> world.InUserCode()
      modifies this
      ensures Valid() && Reaches(old(world), world) && t < |world.calls| && world.calls[t] == NoCall
      ensures exists m, k :: Reaches(old(world), m) && |old(world).enqueued| <= k < |m.enqueued|
                             && m.enqueued[k] == task && Reaches(m, world)
    {
      ghost var start := world;
      ReachesSelf(start);
      ghost var s' := start.(calls := start.calls[t := AtPush(task)]);
      assert StepBegin(start, s', t);
      assert StepCall(start, s', t);
      Record(t, start, s');
      Append(t, start, task);
      ghost var m := world;
      ReachesSelf(m);
      if t != 0 || callingPending {
        var won := CasWakeup(t, m);
        if won {
          Wakeup(t, m);
        }
      }
      ReachesJoin(start, m, world);
      assert m.enqueued[|m.enqueued| - 1] == task;
    }

    /** When Quit returns, the flag is set and the eventfd has just been written. */
    method Quit(t: nat)
      requires Valid() && t < |world.calls| && world.calls[t] == NoCall
      requires t == 0 ==> world.InUserCode()
      modifies this
      ensures Valid() && Reaches(old(world), world) && t < |world.calls| && world.calls[t] == NoCall
      ensures quit && wakeupCounter > 0
    {
      ghost var start := world;
      ReachesSelf(start);
      ghost var s' := start.(calls := start.calls[t := AtQuit]);
      assert StepBegin(start, s', t);
      assert StepCall(start, s', t);
      Record(t, start, s');
      Interfere(t, start);
      ghost var w := world;
      quit := true;
      s' := w.(quit := true, calls := w.calls[t := AtWrite]);
      assert StepQuit(w, s', t);
      assert StepCall(w, s', t);
      Record(t, start, s');
      ghost var m := world;
      ReachesSelf(m);
      Wakeup(t, m);
      ReachesJoin(start, m, world);
    }

    /** One read of the eventfd: it takes the whole counter, or fails when the counter is zero. */
    method ReadEventFd(ghost start: State, ghost rest: seq<Event>, ghost n: nat) returns (got: bool)
      requires Inside(0, start) && world.calls[0] == NoCall && world.loop == Draining(rest, n)
      modifies this
      ensures Inside(0, start) && world.calls[0] == NoCall
      ensures wakeupCounter == 0 && world.loop == if got then Draining(rest, n + 1) else ClearingFlag(rest)
    {
      Interfere(0, start);
      ghost var w := world;
      got := wakeupCounter > 0;
      wakeupCounter := 0;
      ghost var s' := if w.counter > 0 then w.(counter := 0, loop := Draining(rest, n + 1))
                      else w.(loop := ClearingFlag(rest));
      assert StepLoop(w, s');
      Record(0, start, s');
    }

    method ClearFlag(ghost m: State, ghost rest: seq<Event>)
      requires Inside(0, m) && world.calls[0] == NoCall && world.loop == ClearingFlag(rest)
      modifies this
      ensures Inside(0, m) && world.loop == Handling(rest) && !wakeupPending
    {
      Interfere(0, m);
      ghost var w := world;
      wakeupPending := false;
      ghost var s' := w.(flag := false, loop := Handling(rest));
      assert StepLoop(w, s');
      Record(0, m, s');
    }

    /** HandleWakeup: maxReads bounds the read loop, whose length is up to the threads that write. */
    method HandleWakeup(maxReads: nat, ghost rest: seq<Event>) returns (done: bool)
      requires Valid() && world.calls[0] == NoCall && world.loop == Draining(rest, 0)
      modifies this
      ensures Valid() && Reaches(old(world), world)
      ensures done ==> world.loop == Handling(rest) && !wakeupPending
      ensures !done ==> world.loop == Draining(rest, maxReads)
      ensures done ==> exists m ::
        Reaches(old(world), m) && m.loop == ClearingFlag(rest) && m.counter == 0 && Reaches(m, world)
    {
      ghost var start := world;
      ReachesSelf(start);
      for k := 0 to maxReads
        invariant Inside(0, start) && world.calls[0] == NoCall && world.loop == Draining(rest, k)
      {
        var got := ReadEventFd(start, rest, k);
        if !got {
          ghost var m := world;
          ReachesSelf(m);
          ClearFlag(m, rest);
          ReachesJoin(start, m, world);
          return true;
        }
      }
      done := false;
    }

    /** User code run by the loop thread, with the other threads going on: any number of steps of calls,
        in which the loop thread's own calls come to their end. */
    method UserCalls()
      requires Shows() && |world.calls| >= 1 && world.calls[0] == NoCall
      modifies this
      ensures Shows() && CallsReach(old(world), world) && |world.calls| >= 1 && world.calls[0] == NoCall
    {
      assert CallsRun([world]);
    }

    /** What follows from it for the loop thread. */
    method UserCode(ghost start: State)
      requires Inside(0, start) && world.InUserCode() && world.calls[0] == NoCall
      modifies this
      ensures Inside(0, start) && Undisturbed(old(world), world, 0)
    {
      ghost var w := world;
      UserCalls();
      CallsLeaveLoop(w, world);
      ReachesInv(w, world);
      ReachesJoin(start, w, world);
    }

    /** The swap under the lock, when there is something to run. */
    method TakePending(ghost m: State)
      requires Valid() && world == m && m.calls[0] == NoCall && m.loop == Swapping && m.pending != []
      modifies this
      ensures Inside(0, m) && world.calls[0] == NoCall && world.loop == Running(0)
      ensures pendingBuffer == m.pending && world.executed == m.executed
    {
      ReachesSelf(m);
      pendingTasks, pendingBuffer := pendingBuffer, pendingTasks;
      callingPending := true;
      ghost var s' := m.(pending := m.buffer, buffer := m.pending, calling := true, loop := Running(0));
      assert StepLoop(m, s');
      Record(0, m, s');
    }

    method RunTaken(ghost m: State, ghost taken: seq<Task>)
      requires Inside(0, m) && world.calls[0] == NoCall && world.loop == Running(0)
      requires pendingBuffer == taken
      modifies this
      ensures Inside(0, m) && world.calls[0] == NoCall && world.loop == Running(|taken|)
      ensures pendingBuffer == taken && world.executed == old(world.executed) + taken
    {
      ghost var before := world.executed;
      var i := 0;
      assert before + taken[..0] == before;
      while i < |pendingBuffer|
        invariant i <= |pendingBuffer| && pendingBuffer == taken
        invariant Inside(0, m) && world.calls[0] == NoCall && world.loop == Running(i)
        invariant world.executed == before + taken[..i]
      {
        RunTask(m, i);
        TakeOne(before, taken, i);
        i := i + 1;
      }
      TakeAll(before, taken);
    }

    /** DoPendingTasks runs, in order, exactly the tasks that were queued when it took the lock. */
    method DoPendingTasks()
      requires Valid() && world.calls[0] == NoCall && world.loop == Swapping
      modifies this
      ensures Valid() && Reaches(old(world), world)
      ensures world.loop == CheckQuit && !callingPending && pendingBuffer == []
      ensures exists m :: Reaches(old(world), m) && Reaches(m, world)
                          && world.executed == m.executed + m.pending && m.loop == Swapping
    {
      ghost var start := world;
      ReachesSelf(start);
      Interfere(0, start);
      ghost var m := world;
      if pendingTasks == [] {
        ReachesSelf(m);
        assert StepLoop(m, m.(loop := CheckQuit));
        Record(0, m, m.(loop := CheckQuit));
      } else {
        TakePending(m);
        RunTaken(m, m.pending);
        Finish(m);
      }
      ReachesJoin(start, m, world);
    }

    method RunTask(ghost start: State, i: nat)
      requires Inside(0, start) && world.calls[0] == NoCall && world.loop == Running(i) && i < |pendingBuffer|
      modifies this
      ensures Inside(0, start) && world.calls[0] == NoCall && world.loop == Running(i + 1)
      ensures pendingBuffer == old(pendingBuffer)
      ensures world.executed == old(world.executed) + [old(pendingBuffer)[i]]
    {
      ghost var w := world;
      ghost var s' := w.(loop := InTask(i), executed := w.executed + [w.buffer[i]]);
      assert StepLoop(w, s');
      Record(0, start, s');
      UserCode(start);
      w := world;
      assert StepLoop(w, w.(loop := Running(i + 1)));
      Record(0, start, w.(loop := Running(i + 1)));
    }

    method Finish(ghost start: State)
      requires Inside(0, start) && world.calls[0] == NoCall && world.loop == Running(|pendingBuffer|)
      modifies this
      ensures Inside(0, start) && world.loop == CheckQuit && world.executed == old(world.executed)
      ensures !callingPending && pendingBuffer == []
    {
      Interfere(0, start);
      ghost var w := world;
      pendingBuffer := [];
      callingPending := false;
      ghost var s' := w.(buffer := [], calling := false, loop := CheckQuit);
      assert StepLoop(w, s');
      Record(0, start, s');
    }
  }

  lemma TakeOne(before: seq<Task>, taken: seq<Task>, i: nat)
    requires i < |taken|
    ensures before + taken[..i] + [taken[i]] == before + taken[..i + 1]
  {}

  lemma TakeAll(before: seq<Task>, taken: seq<Task>)
    ensures before + taken[..|taken|] == before + taken
  {}
}

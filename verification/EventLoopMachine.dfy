/** The event loop of src/event_loop.cc as a transition system: one loop thread and any number of
    others that queue tasks or ask the loop to quit, interleaved at every access of shared state.

    Thread 0 runs the loop. What the kernel reports is unconstrained, except that the wake-up
    channel is reported only while the eventfd counter is positive. */
module EventLoopMachine {

  type Task = nat

  datatype Event = Wake | Other

  datatype Timeout = Now | AtLeast(ms: nat) | Forever

  /** Where a thread stands inside QueueInLoop or Quit. */
  datatype Call =
    | NoCall
    | AtPush(task: Task)  // append to pending_tasks_ under the lock
    | AtCas               // compare-exchange wakeup_pending_ from false to true
    | AtQuit              // set quit_
    | AtWrite             // add one to the eventfd

  datatype LoopPc =
    | CheckQuit
    | CheckPending
    | Polling(timeout: Timeout)
    | Handling(events: seq<Event>)   // events of the batch still to be handled
    | InCallback(rest: seq<Event>)   // user code of a channel
    | Draining(rest: seq<Event>, n: nat) // HandleWakeup: n reads so far, until the counter is zero
    | ClearingFlag(rest: seq<Event>) // HandleWakeup: reset wakeup_pending_
    | InTimers                       // user code of timers
    | Swapping                       // DoPendingTasks, under the lock
    | Running(next: nat)             // about to run pending_buffer_[next]
    | InTask(current: nat)           // user code of pending_buffer_[current]
    | Exited

  datatype State = State(
    pending: seq<Task>,
    buffer: seq<Task>,
    counter: nat,
    flag: bool,
    calling: bool,
    quit: bool,
    loop: LoopPc,
    calls: seq<Call>,
    enqueued: seq<Task>,
    executed: seq<Task>
  ) {
    /** Tasks swapped out but not started yet. */
    function Unstarted(): seq<Task> {
      match loop
      case Running(i) => if i <= |buffer| then buffer[i..] else []
      case InTask(i) => if i < |buffer| then buffer[i + 1..] else []
      case _ => []
    }

    predicate InUserCode() {
      loop.InCallback? || loop.InTimers? || loop.InTask?
    }

    ghost predicate SomeoneAt(c: Call) {
      exists t :: 0 <= t < |calls| && calls[t] == c
    }
  }

  ghost predicate Init(s: State) {
    && |s.calls| >= 1
    && s == State([], [], 0, false, false, false, CheckQuit, s.calls, [], [])
    && forall t :: 0 <= t < |s.calls| ==> s.calls[t] == NoCall
  }

  // ---------------------------------------------------------------- QueueInLoop and Quit

  ghost predicate StepBegin(s: State, s': State, t: nat) {
    && t < |s.calls| && s.calls[t] == NoCall
    && (t == 0 ==> s.InUserCode())
    && (|| s' == s.(calls := s.calls[t := AtQuit])
        || exists task :: s' == s.(calls := s.calls[t := AtPush(task)]))
  }

  /** A thread other than the loop's always goes on to the flag; the loop's only while it runs
      pending tasks. */
  ghost predicate StepPush(s: State, s': State, t: nat) {
    && t < |s.calls| && s.calls[t].AtPush?
    && s' == s.(pending := s.pending + [s.calls[t].task],
                enqueued := s.enqueued + [s.calls[t].task],
                calls := s.calls[t := if t != 0 || s.calling then AtCas else NoCall])
  }

  ghost predicate StepCas(s: State, s': State, t: nat) {
    && t < |s.calls| && s.calls[t] == AtCas
    && s' == if s.flag then s.(calls := s.calls[t := NoCall])
             else s.(flag := true, calls := s.calls[t := AtWrite])
  }

  ghost predicate StepQuit(s: State, s': State, t: nat) {
    && t < |s.calls| && s.calls[t] == AtQuit
    && s' == s.(quit := true, calls := s.calls[t := AtWrite])
  }

  ghost predicate StepWrite(s: State, s': State, t: nat) {
    && t < |s.calls| && s.calls[t] == AtWrite
    && s' == s.(counter := s.counter + 1, calls := s.calls[t := NoCall])
  }

  ghost predicate StepCall(s: State, s': State, t: nat) {
    StepBegin(s, s', t) || StepPush(s, s', t) || StepCas(s, s', t) || StepQuit(s, s', t) || StepWrite(s, s', t)
  }

  // ---------------------------------------------------------------- the loop thread

  ghost predicate StepLoop(s: State, s': State) {
    && |s.calls| >= 1 && s.calls[0] == NoCall
    && match s.loop
       case CheckQuit => s' == s.(loop := if s.quit then Exited else CheckPending)
       case CheckPending =>
         exists timeout :: (timeout == Now <==> s.pending != []) && (timeout.AtLeast? ==> timeout.ms >= 1)
                           && s' == s.(loop := Polling(timeout))
       case Polling(_) =>
         exists events :: (Wake in events ==> s.counter > 0) && s' == s.(loop := Handling(events))
       case Handling(events) =>
         s' == s.(loop := if events == [] then InTimers
                          else if events[0] == Wake then Draining(events[1..], 0)
                          else InCallback(events[1..]))
       case InCallback(rest) => s' == s.(loop := Handling(rest))
       case Draining(rest, n) =>
         s' == if s.counter > 0 then s.(counter := 0, loop := Draining(rest, n + 1)) else s.(loop := ClearingFlag(rest))
       case ClearingFlag(rest) => s' == s.(flag := false, loop := Handling(rest))
       case InTimers => s' == s.(loop := Swapping)
       case Swapping =>
         s' == if s.pending == [] then s.(loop := CheckQuit)
               else s.(pending := s.buffer, buffer := s.pending, calling := true, loop := Running(0))
       case Running(i) =>
         s' == if i < |s.buffer| then s.(loop := InTask(i), executed := s.executed + [s.buffer[i]])
               else s.(buffer := [], calling := false, loop := CheckQuit)
       case InTask(i) => s' == s.(loop := Running(i + 1))
       case Exited => false
  }

  ghost predicate Next(s: State, s': State) {
    StepLoop(s, s') || exists t :: StepCall(s, s', t)
  }

  ghost predicate Run(run: seq<State>) {
    && |run| >= 1 && Init(run[0])
    && forall k :: 0 < k < |run| ==> Next(run[k - 1], run[k])
  }

  ghost predicate Reachable(s: State) {
    exists run :: Run(run) && run[|run| - 1] == s
  }

  // ---------------------------------------------------------------- invariant

  /** Every task is in exactly one place, in the order it was queued. */
  ghost predicate Conserved(s: State) {
    && s.executed + s.Unstarted() + s.pending == s.enqueued
    && (s.loop.Running? ==> s.loop.next <= |s.buffer|)
    && (s.loop.InTask? ==> s.loop.current < |s.buffer|)
    && (!s.loop.Running? && !s.loop.InTask? ==> s.buffer == [])
    && (s.calling <==> s.loop.Running? || s.loop.InTask?)
  }

  /** A set flag means a wake-up is on its way, or the loop is handling one right now. */
  ghost predicate FlagIsBacked(s: State) {
    s.flag ==> s.counter > 0 || s.SomeoneAt(AtWrite) || s.loop.Draining? || s.loop.ClearingFlag?
  }

  /** Work that appeared after the loop looked comes with a wake-up. */
  ghost predicate WakeIsComing(s: State) {
    s.loop.Polling? && s.pending != [] ==>
      s.loop.timeout == Now || s.counter > 0 || s.SomeoneAt(AtWrite) || s.SomeoneAt(AtCas)
  }

  ghost predicate QuitIsSeen(s: State) {
    s.quit && (s.loop.CheckPending? || s.loop.Polling?) ==> s.counter > 0 || s.SomeoneAt(AtWrite)
  }

  ghost predicate Inv(s: State) {
    && |s.calls| >= 1
    && (s.calls[0] != NoCall ==> s.InUserCode())
    && Conserved(s) && FlagIsBacked(s) && WakeIsComing(s) && QuitIsSeen(s)
  }

  /** Threads other than t stay where they are in their calls. */
  lemma OthersStay(s: State, s': State, t: nat, c: Call)
    requires t < |s.calls| == |s'.calls| && s'.calls == s.calls[t := s'.calls[t]]
    ensures s.SomeoneAt(c) && s.calls[t] != c ==> s'.SomeoneAt(c)
    ensures s'.calls[t] == c ==> s'.SomeoneAt(c)
  {
    if s.SomeoneAt(c) && s.calls[t] != c {
      var u :| 0 <= u < |s.calls| && s.calls[u] == c;
      assert s'.calls[u] == c;
    }
  }

  lemma PushKeepsConserved(s: State, s': State, t: nat)
    requires Conserved(s) && StepPush(s, s', t)
    ensures Conserved(s')
  {
    assert s'.Unstarted() == s.Unstarted();
    AppendLast(s.executed + s.Unstarted(), s.pending, [s.calls[t].task]);
  }

  /** Steps that touch neither the tasks nor the loop. */
  lemma TasksUntouched(s: State, s': State)
    requires Conserved(s)
    requires s' == s.(calls := s'.calls, counter := s'.counter, flag := s'.flag, quit := s'.quit)
    ensures Conserved(s')
  {
    assert s'.Unstarted() == s.Unstarted();
  }

  lemma CallKeepsConserved(s: State, s': State, t: nat)
    requires Inv(s) && StepCall(s, s', t)
    ensures Conserved(s')
  {
    if StepPush(s, s', t) {
      PushKeepsConserved(s, s', t);
    } else {
      TasksUntouched(s, s');
    }
  }

  lemma AppendLast(a: seq<Task>, b: seq<Task>, c: seq<Task>)
    ensures a + (b + c) == a + b + c
  {}

  lemma BeginKeepsWakeups(s: State, s': State, t: nat)
    requires FlagIsBacked(s) && WakeIsComing(s) && QuitIsSeen(s) && (StepBegin(s, s', t) || StepPush(s, s', t))
    requires t == 0 ==> s.InUserCode()
    ensures FlagIsBacked(s') && WakeIsComing(s') && QuitIsSeen(s')
  {
    OthersStay(s, s', t, AtWrite);
    OthersStay(s, s', t, AtCas);
  }

  lemma RaiseKeepsWakeups(s: State, s': State, t: nat)
    requires FlagIsBacked(s) && WakeIsComing(s) && QuitIsSeen(s)
    requires StepCas(s, s', t) || StepQuit(s, s', t) || StepWrite(s, s', t)
    ensures FlagIsBacked(s') && WakeIsComing(s') && QuitIsSeen(s')
  {
    OthersStay(s, s', t, AtWrite);
    OthersStay(s, s', t, AtCas);
  }

  lemma CallKeepsWakeups(s: State, s': State, t: nat)
    requires Inv(s) && StepCall(s, s', t)
    ensures FlagIsBacked(s') && WakeIsComing(s') && QuitIsSeen(s')
  {
    if StepBegin(s, s', t) || StepPush(s, s', t) {
      BeginKeepsWakeups(s, s', t);
    } else {
      RaiseKeepsWakeups(s, s', t);
    }
  }

  lemma CallKeepsLoop(s: State, s': State, t: nat)
    requires StepCall(s, s', t)
    ensures s'.loop == s.loop
  {}

  /** A call does not move the loop, and the loop thread calls from user code only. */
  lemma CallKeepsCaller(s: State, s': State, t: nat)
    requires |s.calls| >= 1 && (s.calls[0] != NoCall ==> s.InUserCode()) && StepCall(s, s', t)
    ensures |s'.calls| >= 1 && (s'.calls[0] != NoCall ==> s'.InUserCode())
  {
    CallKeepsLoop(s, s', t);
  }

  lemma CallStepKeepsInv(s: State, s': State, t: nat)
    requires Inv(s) && StepCall(s, s', t)
    ensures Inv(s')
  {
    CallKeepsCaller(s, s', t);
    CallKeepsConserved(s, s', t);
    CallKeepsWakeups(s, s', t);
  }

  lemma SwapKeepsConserved(s: State, s': State)
    requires Conserved(s) && |s.calls| >= 1 && s.loop.Swapping? && StepLoop(s, s')
    ensures Conserved(s')
  {
    if s.pending != [] {
      assert s'.Unstarted() == s.pending && s'.pending == [];
      assert s.Unstarted() == [];
    }
  }

  lemma RunningKeepsConserved(s: State, s': State)
    requires Conserved(s) && |s.calls| >= 1 && s.loop.Running? && StepLoop(s, s')
    ensures Conserved(s')
  {
    var i := s.loop.next;
    if i < |s.buffer| {
      assert s.buffer[i..] == [s.buffer[i]] + s.buffer[i + 1..];
      assert s'.executed + s'.Unstarted() == s.executed + s.Unstarted();
    } else {
      assert s.Unstarted() == [] && s'.Unstarted() == [];
    }
  }

  lemma LoopKeepsConserved(s: State, s': State)
    requires Conserved(s) && |s.calls| >= 1 && StepLoop(s, s')
    ensures Conserved(s')
  {
    if s.loop.Swapping? {
      SwapKeepsConserved(s, s');
    } else if s.loop.Running? {
      RunningKeepsConserved(s, s');
    } else {
      assert s'.Unstarted() == s.Unstarted();
    }
  }

  lemma LoopKeepsWakeups(s: State, s': State)
    requires Inv(s) && StepLoop(s, s')
    ensures FlagIsBacked(s') && WakeIsComing(s') && QuitIsSeen(s')
  {
    assert s'.calls == s.calls;
    assert s.SomeoneAt(AtWrite) == s'.SomeoneAt(AtWrite);
    assert s.SomeoneAt(AtCas) == s'.SomeoneAt(AtCas);
  }

  lemma LoopStepKeepsInv(s: State, s': State)
    requires Inv(s) && StepLoop(s, s')
    ensures Inv(s')
  {
    LoopKeepsConserved(s, s');
    LoopKeepsWakeups(s, s');
  }

  lemma NextKeepsInv(s: State, s': State)
    requires Inv(s) && Next(s, s')
    ensures Inv(s')
  {
    if StepLoop(s, s') {
      LoopStepKeepsInv(s, s');
    } else {
      var t :| StepCall(s, s', t);
      CallStepKeepsInv(s, s', t);
    }
  }

  lemma {:induction false} RunKeepsInv(run: seq<State>, k: nat)
    requires Run(run) && k < |run|
    ensures Inv(run[k])
  {
    if k > 0 {
      RunKeepsInv(run, k - 1);
      assert Next(run[k - 1], run[k]);
      NextKeepsInv(run[k - 1], run[k]);
    }
  }

  // ---------------------------------------------------------------- what the loop promises

  /** No wake-up is lost. Whenever the loop is in Poll with work queued, Poll does not wait, or the
      eventfd is readable, or some thread is between its push and its write and will write: it has
      won the flag, or the flag is still down for it to win. */
  lemma NoLostWakeup(s: State)
    requires Reachable(s) && s.loop.Polling? && s.pending != []
    ensures s.loop.timeout == Now || s.counter > 0
            || s.SomeoneAt(AtWrite) || (!s.flag && s.SomeoneAt(AtCas))
  {
    var run :| Run(run) && run[|run| - 1] == s;
    RunKeepsInv(run, |run| - 1);
  }

  lemma FirstOfThree(a: seq<Task>, b: seq<Task>, c: seq<Task>)
    ensures a <= a + b + c
  {}

  /** Tasks run in the order they were queued, each at most once, and none is dropped. */
  lemma TasksRunInOrder(s: State)
    requires Reachable(s)
    ensures s.executed <= s.enqueued
    ensures s.executed + s.Unstarted() + s.pending == s.enqueued
  {
    var run :| Run(run) && run[|run| - 1] == s;
    RunKeepsInv(run, |run| - 1);
    FirstOfThree(s.executed, s.Unstarted(), s.pending);
  }

  /** When the loop sleeps with nothing to wake it and no call is under way, every task ever queued
      has run and nobody has asked it to quit. */
  lemma SleepingLoopIsDone(s: State)
    requires Reachable(s) && s.loop.Polling? && s.loop.timeout != Now && s.counter == 0
    requires forall t :: 0 <= t < |s.calls| ==> s.calls[t] == NoCall
    ensures s.executed == s.enqueued && s.pending == [] && !s.quit && !s.flag
  {
    var run :| Run(run) && run[|run| - 1] == s;
    RunKeepsInv(run, |run| - 1);
  }

  lemma ExitStep(s: State, s': State)
    requires Next(s, s') && (s.loop == Exited ==> s.quit)
    ensures s'.loop == Exited ==> s'.quit
  {
    if !StepLoop(s, s') {
      var t :| StepCall(s, s', t);
      CallKeepsLoop(s, s', t);
    }
  }

  /** A loop that has left Loop() has been asked to. */
  lemma {:induction false} ExitsOnlyWhenAsked(run: seq<State>, k: nat)
    requires Run(run) && k < |run|
    ensures run[k].loop == Exited ==> run[k].quit
  {
    if k > 0 {
      ExitsOnlyWhenAsked(run, k - 1);
      assert Next(run[k - 1], run[k]);
      ExitStep(run[k - 1], run[k]);
    }
  }
}

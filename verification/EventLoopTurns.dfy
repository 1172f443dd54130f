/** What one turn of the loop of src/event_loop.cc does: when it leaves, that it always goes on, in which
    order it takes events, and how often it is woken. */
module EventLoopTurns {
  import opened EventLoopMachine

  /** After the compare-exchange the flag is up, and the thread writes exactly if it was down before. */
  lemma CasWritesIff(s: State, s': State, t: nat)
    requires StepCas(s, s', t)
    ensures s'.flag && s'.calls[t] == (if s.flag then NoCall else AtWrite)
  {}

  lemma FlagStaysUp(s: State, s': State)
    requires Next(s, s') && s.flag && !s.loop.ClearingFlag?
    ensures s'.flag
  {}

  ghost predicate FlagKept(run: seq<State>, k: nat) {
    k + 1 < |run| && (run[k].flag ==> run[k + 1].flag)
  }

  lemma {:induction false} FlagUpThrough(run: seq<State>, i: nat, j: nat)
    requires i <= j < |run| && run[i].flag && forall k :: i <= k < j ==> FlagKept(run, k)
    ensures run[j].flag
    decreases j
  {
    if i < j {
      FlagUpThrough(run, i, j - 1);
      assert FlagKept(run, j - 1);
    }
  }

  /** Wake-ups coalesce: once a call has reached the flag, every other that reaches it before the loop
      clears it goes away without writing. */
  lemma WakeupsCoalesce(run: seq<State>, i: nat, j: nat, t: nat, u: nat)
    requires Run(run) && i < j < |run| - 1 && StepCas(run[i], run[i + 1], t) && StepCas(run[j], run[j + 1], u)
    requires forall k {:trigger run[k]} :: i < k < j ==> !run[k].loop.ClearingFlag?
    ensures run[j + 1].calls[u] == NoCall && run[j + 1].counter == run[j].counter
  {
    CasWritesIff(run[i], run[i + 1], t);
    forall k: nat | i < k < j ensures FlagKept(run, k) {
      assert Next(run[k], run[k + 1]) by { assert Next(run[(k + 1) - 1], run[k + 1]); }
      if run[k].flag {
        FlagStaysUp(run[k], run[k + 1]);
      }
    }
    FlagUpThrough(run, i + 1, j);
    CasWritesIff(run[j], run[j + 1], u);
  }

  /** The loop goes for another turn only if nobody has asked it to quit; otherwise it leaves. */
  lemma TurnsUnlessAsked(s: State, s': State)
    requires Next(s, s') && s.loop == CheckQuit && s'.loop != CheckQuit
    ensures s'.loop == Exited <==> s.quit
    ensures s'.loop == CheckPending <==> !s.quit
  {}

  /** Outside its own calls the loop thread can always go on, until it has left. */
  lemma LoopNeverStuck(s: State)
    requires |s.calls| >= 1 && s.calls[0] == NoCall && s.loop != Exited
    ensures exists s' :: StepLoop(s, s')
  {
    if s.loop.CheckQuit? || s.loop.CheckPending? || s.loop.Polling? || s.loop.InTimers? {
      TurnGoesOn(s);
    } else if s.loop.Swapping? || s.loop.Running? || s.loop.InTask? {
      TasksGoOn(s);
    } else {
      EventsGoOn(s);
    }
  }

  lemma TurnGoesOn(s: State)
    requires |s.calls| >= 1 && s.calls[0] == NoCall
    requires s.loop.CheckQuit? || s.loop.CheckPending? || s.loop.Polling? || s.loop.InTimers?
    ensures exists s' :: StepLoop(s, s')
  {
    var s';
    match s.loop {
      case CheckQuit => s' := s.(loop := if s.quit then Exited else CheckPending);
      case CheckPending =>
        var timeout := if s.pending != [] then Now else Forever;
        s' := s.(loop := Polling(timeout));
      case Polling(_) => s' := s.(loop := Handling([]));
      case InTimers => s' := s.(loop := Swapping);
    }
    assert StepLoop(s, s');
  }

  lemma TasksGoOn(s: State)
    requires |s.calls| >= 1 && s.calls[0] == NoCall && (s.loop.Swapping? || s.loop.Running? || s.loop.InTask?)
    ensures exists s' :: StepLoop(s, s')
  {
    var s';
    match s.loop {
      case Swapping =>
        s' := if s.pending == [] then s.(loop := CheckQuit)
              else s.(pending := s.buffer, buffer := s.pending, calling := true, loop := Running(0));
      case Running(i) =>
        s' := if i < |s.buffer| then s.(loop := InTask(i), executed := s.executed + [s.buffer[i]])
              else s.(buffer := [], calling := false, loop := CheckQuit);
      case InTask(i) => s' := s.(loop := Running(i + 1));
    }
    assert StepLoop(s, s');
  }

  lemma EventsGoOn(s: State)
    requires |s.calls| >= 1 && s.calls[0] == NoCall
    requires s.loop.Handling? || s.loop.InCallback? || s.loop.Draining? || s.loop.ClearingFlag?
    ensures exists s' :: StepLoop(s, s')
  {
    var s';
    match s.loop {
      case Handling(events) =>
        s' := s.(loop := if events == [] then InTimers
                         else if events[0] == Wake then Draining(events[1..], 0)
                         else InCallback(events[1..]));
      case InCallback(rest) => s' := s.(loop := Handling(rest));
      case Draining(rest, n) =>
        s' := if s.counter > 0 then s.(counter := 0, loop := Draining(rest, n + 1)) else s.(loop := ClearingFlag(rest));
      case ClearingFlag(rest) => s' := s.(flag := false, loop := Handling(rest));
    }
    assert StepLoop(s, s');
  }

  /** The events of the batch that are still to be handled. */
  function EventsLeft(s: State): seq<Event> {
    match s.loop
    case Handling(events) => events
    case InCallback(rest) => rest
    case Draining(rest, _) => rest
    case ClearingFlag(rest) => rest
    case _ => []
  }

  /** A step either leaves the events to do alone or takes the first one, a wake-up into the drain and
      every other into its callback; the timers come when none is left. */
  ghost predicate TakesInOrder(s: State, s': State) {
    && (EventsLeft(s') == EventsLeft(s)
        || (s.loop.Handling? && EventsLeft(s) != [] && EventsLeft(s') == EventsLeft(s)[1..]
            && if EventsLeft(s)[0] == Wake then s'.loop.Draining? else s'.loop.InCallback?))
    && (s'.loop.InTimers? && !s.loop.InTimers? ==> EventsLeft(s) == [])
    && (s.loop.Handling? && s'.loop.Handling? ==> s'.loop == s.loop)
  }

  lemma LoopTakesInOrder(s: State, s': State)
    requires StepLoop(s, s') && !s.loop.Polling?
    ensures TakesInOrder(s, s')
  {}

  /** A batch is handled one event after the other, in the order the poll reported them. */
  lemma EventsTakenInOrder(s: State, s': State)
    requires Next(s, s') && !s.loop.Polling?
    ensures TakesInOrder(s, s')
  {
    if StepLoop(s, s') {
      LoopTakesInOrder(s, s');
    } else {
      var t :| StepCall(s, s', t);
      CallKeepsLoop(s, s', t);
    }
  }
}

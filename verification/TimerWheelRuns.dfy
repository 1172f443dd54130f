/** What the timer wheel promises over whole runs of additions, cancellations and ticks, and when a
    cancellation reaches the timer it is meant for. */
module TimerWheelRuns {
  import opened TimerWheelSpec

  datatype Action = Add(delay: nat, repeats: bool) | Remove(id: Id) | TickTo(now: nat)

  ghost predicate Step(w: Wheel, a: Action, w': Wheel) {
    && Inv(w)
    && match a
       case Add(delay, repeats) => w' == AddTimer(w, delay, repeats)
       case Remove(id) => w' == RemoveTimer(w, id)
       case TickTo(now) => w.time <= now && exists f :: Ticked(w, w', now, f)
  }

  ghost predicate StepAt(states: seq<Wheel>, acts: seq<Action>, k: nat) {
    k < |acts| && k + 1 < |states| && Step(states[k], acts[k], states[k + 1])
  }

  ghost predicate Run(states: seq<Wheel>, acts: seq<Action>) {
    && |states| == |acts| + 1
    && forall k :: 0 <= k < |acts| ==> StepAt(states, acts, k)
  }

  lemma StepKeepsInv(w: Wheel, a: Action, w': Wheel)
    requires Step(w, a, w')
    ensures Inv(w') && w.time <= w'.time && w.nextId <= w'.nextId
  {
    match a
    case Add(delay, repeats) => AddKeepsInv(w, delay, repeats);
    case Remove(id) => RemoveKeepsInv(w, id);
    case TickTo(now) =>
      var f :| Ticked(w, w', now, f);
      TickKeepsInv(w, w', now, f);
  }

  // ---------------------------------------------------------------- when timers fire

  lemma {:induction false} NoDupCounts(l: seq<Id>, id: Id)
    requires NoDup(l)
    ensures multiset(l)[id] == if id in l then 1 else 0
  {
    if l != [] {
      assert l == [l[0]] + l[1..];
      assert NoDup(l[1..]) && l[0] !in l[1..];
      NoDupCounts(l[1..], id);
    }
  }

  /** A tick runs each callback that is due exactly once and no other, however often it scans. */
  lemma TickFiresDueOnce(w: Wheel, w': Wheel, now: nat, f: seq<Id>, id: Id)
    requires Inv(w) && w.time <= now && Ticked(w, w', now, f)
    ensures multiset(w'.fired)[id] == multiset(w.fired)[id] + (if Due(w, id, now) then 1 else 0)
  {
    NoDupCounts(f, id);
    assert multiset(w'.fired) == multiset(w.fired) + multiset(f);
  }

  /** Registered, single-shot, not yet fired. */
  ghost predicate Waiting(w: Wheel, id: Id, expire: nat) {
    id in w.mapped && id in w.timers && w.timers[id] == Timer(expire, false, 0)
  }

  /** Nowhere in the wheel, and no id handed out later can be it. */
  ghost predicate Gone(w: Wheel, id: Id) {
    !InWheel(w, id) && id !in w.mapped && id < w.nextId
  }

  lemma GoneStep(w: Wheel, a: Action, w': Wheel, id: Id)
    requires Step(w, a, w') && Gone(w, id)
    ensures Gone(w', id) && multiset(w'.fired)[id] == multiset(w.fired)[id]
  {
    StepKeepsInv(w, a, w');
    match a
    case Add(delay, repeats) =>
      AddKeepsInv(w, delay, repeats);
      assert forall k :: !Has(w, k, id);
    case Remove(x) =>
      RemoveKeepsInv(w, x);
      assert forall k :: !Has(w, k, id);
    case TickTo(now) =>
      var f :| Ticked(w, w', now, f);
      TickFiresDueOnce(w, w', now, f, id);
      assert id !in f && Untouched(w, w', id);
      assert forall k :: !Has(w, k, id);
  }

  lemma WaitingStep(w: Wheel, a: Action, w': Wheel, id: Id, expire: nat)
    requires Step(w, a, w') && Waiting(w, id, expire) && a != Remove(id)
    ensures if w'.time >= expire then Gone(w', id) else Waiting(w', id, expire)
    ensures multiset(w'.fired)[id] == multiset(w.fired)[id] + (if w'.time >= expire then 1 else 0)
  {
    StepKeepsInv(w, a, w');
    MappedIsPresent(w, id);
    match a
    case Add(_, _) =>
    case Remove(_) =>
    case TickTo(now) =>
      var f :| Ticked(w, w', now, f);
      TickFiresDueOnce(w, w', now, f, id);
      if id in f {
        assert FiredOne(w, w', now, id, BaseCur(w, now), BaseTime(w, now));
      } else {
        assert Untouched(w, w', id);
      }
  }

  /** A single-shot timer that is not cancelled runs its callback exactly once, at the first tick
      whose time has reached its expiry, never before, and is then gone for good. */
  lemma {:induction false} SingleShotFiresOnce(states: seq<Wheel>, acts: seq<Action>, id: Id, expire: nat, k: nat)
    requires Run(states, acts) && Waiting(states[0], id, expire) && Inv(states[0]) && k < |states|
    requires forall a :: a in acts ==> a != Remove(id)
    ensures var w := states[k];
      && Inv(w)
      && (if k > 0 && w.time >= expire then Gone(w, id) else Waiting(w, id, expire))
      && multiset(w.fired)[id] == multiset(states[0].fired)[id] + (if w.time >= expire then 1 else 0)
  {
    if k == 0 {
      MappedIsPresent(states[0], id);
    } else {
      SingleShotFiresOnce(states, acts, id, expire, k - 1);
      assert StepAt(states, acts, k - 1);
      StepKeepsInv(states[k - 1], acts[k - 1], states[k]);
      if Waiting(states[k - 1], id, expire) {
        MappedIsPresent(states[k - 1], id);
        assert acts[k - 1] in acts;
        WaitingStep(states[k - 1], acts[k - 1], states[k], id, expire);
      } else {
        GoneStep(states[k - 1], acts[k - 1], states[k], id);
      }
    }
  }

  /** A timer that has left the wheel never runs its callback again. */
  lemma {:induction false} GoneIsForever(states: seq<Wheel>, acts: seq<Action>, id: Id, k: nat)
    requires Run(states, acts) && Gone(states[0], id) && k < |states|
    ensures Gone(states[k], id) && multiset(states[k].fired)[id] == multiset(states[0].fired)[id]
  {
    if k > 0 {
      GoneIsForever(states, acts, id, k - 1);
      assert StepAt(states, acts, k - 1);
      GoneStep(states[k - 1], acts[k - 1], states[k], id);
    }
  }

  /** A repeating timer that is due is armed again for one interval after the tick. */
  lemma RepeatingIsRearmed(w: Wheel, w': Wheel, now: nat, f: seq<Id>, id: Id)
    requires Inv(w) && w.time <= now && Ticked(w, w', now, f) && id in w.mapped
    requires id in w.timers && w.timers[id].repeats
    ensures id in w'.mapped && InWheel(w', id) && id in w'.timers
    ensures w'.timers[id] == if w.timers[id].expire <= now then w.timers[id].(expire := now + w.timers[id].interval)
                             else w.timers[id]
  {
    TickKeepsInv(w, w', now, f);
    assert InWheel(w, id);
    if id in f {
      assert FiredOne(w, w', now, id, BaseCur(w, now), BaseTime(w, now));
    } else {
      assert Untouched(w, w', id);
    }
  }

  /** The delay a timer really gets. */
  function AtLeastOne(delay: nat): nat {
    if delay == 0 then 1 else delay
  }

  lemma RunTail(states: seq<Wheel>, acts: seq<Action>)
    requires Run(states, acts) && |acts| > 0
    ensures Run(states[1..], acts[1..])
  {
    forall k | 0 <= k < |acts[1..]| ensures StepAt(states[1..], acts[1..], k) {
      assert StepAt(states, acts, k + 1);
    }
  }

  /** Added without repetition and never cancelled: in every later state the callback has run once if
      the clock has reached the time of the addition plus the delay, and not at all otherwise; once it
      has run the timer is gone for good. */
  lemma AddedOnceFiresOnce(states: seq<Wheel>, acts: seq<Action>, delay: nat, k: nat)
    requires Run(states, acts) && 0 < k < |states| && acts[0] == Add(delay, false)
    requires forall a :: a in acts ==> a != Remove(states[0].nextId)
    ensures var id, e := states[0].nextId, states[0].time + AtLeastOne(delay);
      && multiset(states[k].fired)[id] == multiset(states[0].fired)[id] + (if states[k].time >= e then 1 else 0)
      && if states[k].time >= e then Gone(states[k], id) else Waiting(states[k], id, e)
  {
    assert StepAt(states, acts, 0);
    AddKeepsInv(states[0], delay, false);
    StepKeepsInv(states[0], acts[0], states[1]);
    RunTail(states, acts);
    assert forall a :: a in acts[1..] ==> a in acts;
    var id, e := states[0].nextId, states[0].time + AtLeastOne(delay);
    assert Waiting(states[1], id, e);
    assert states[1..][k - 1] == states[k];
    SingleShotFiresOnce(states[1..], acts[1..], id, e, k - 1);
  }

  /** Registered, repeating, with this interval and this next expiry. */
  ghost predicate Repeats(w: Wheel, id: Id, interval: nat, expire: nat) {
    id in w.mapped && id in w.timers && w.timers[id] == Timer(expire, true, interval)
  }

  /** When a repeating timer is due next, after an action that does not cancel it. */
  function NextExpiry(a: Action, interval: nat, expire: nat): nat {
    if a.TickTo? && a.now >= expire then a.now + interval else expire
  }

  lemma RepeatsStep(w: Wheel, a: Action, w': Wheel, id: Id, interval: nat, expire: nat)
    requires Step(w, a, w') && Repeats(w, id, interval, expire) && a != Remove(id)
    ensures Repeats(w', id, interval, NextExpiry(a, interval, expire))
    ensures multiset(w'.fired)[id] == multiset(w.fired)[id] + (if a.TickTo? && a.now >= expire then 1 else 0)
  {
    match a
    case Add(delay, repeats) => AddKeepsInv(w, delay, repeats);
    case Remove(x) => RemoveKeepsInv(w, x);
    case TickTo(now) =>
      var f :| Ticked(w, w', now, f);
      TickFiresDueOnce(w, w', now, f, id);
      RepeatingIsRearmed(w, w', now, f, id);
      assert InWheel(w, id);
  }

  /** The expiry times of a repeating timer added by the first action: that of the addition, and from
      each tick that reaches the last one, that tick's time plus the interval. */
  function ExpiryAt(time: nat, acts: seq<Action>, interval: nat, k: nat): nat
    requires 0 < k <= |acts|
  {
    if k == 1 then time + interval else NextExpiry(acts[k - 1], interval, ExpiryAt(time, acts, interval, k - 1))
  }

  /** Added with repetition and never cancelled: it stays registered, and every tick whose time has
      reached its expiry runs its callback once and arms it for one interval after that tick; no other
      action runs it or changes its expiry. */
  lemma {:induction false} AddedRepeatsFires(states: seq<Wheel>, acts: seq<Action>, delay: nat, k: nat)
    requires Run(states, acts) && 0 < k < |states| && acts[0] == Add(delay, true)
    requires forall a :: a in acts ==> a != Remove(states[0].nextId)
    ensures var id, d := states[0].nextId, AtLeastOne(delay);
      var e := ExpiryAt(states[0].time, acts, d, k);
      && Repeats(states[k], id, d, e)
      && (k == 1 ==> multiset(states[1].fired)[id] == multiset(states[0].fired)[id])
      && var runs := if k < |acts| && acts[k].TickTo? && acts[k].now >= e then 1 else 0;
      (k < |acts| ==> multiset(states[k + 1].fired)[id] == multiset(states[k].fired)[id] + runs)
  {
    var id, d := states[0].nextId, AtLeastOne(delay);
    if k == 1 {
      assert StepAt(states, acts, 0);
      AddKeepsInv(states[0], delay, true);
    } else {
      AddedRepeatsFires(states, acts, delay, k - 1);
      assert StepAt(states, acts, k - 1) && acts[k - 1] in acts;
      RepeatsStep(states[k - 1], acts[k - 1], states[k], id, d, ExpiryAt(states[0].time, acts, d, k - 1));
    }
    if k < |acts| {
      assert StepAt(states, acts, k) && acts[k] in acts;
      RepeatsStep(states[k], acts[k], states[k + 1], id, d, ExpiryAt(states[0].time, acts, d, k));
    }
  }

  /** The timeout the loop computes is exact: a tick before it fires no registered timer, a tick at
      it or later fires one. */
  lemma TimeoutIsExact(w: Wheel, w': Wheel, now: nat, f: seq<Id>, ms: nat)
    requires Inv(w) && w.time <= now && Ticked(w, w', now, f)
    requires forall id :: id in w.mapped ==> id in w.timers && w.timers[id].expire >= w.time + ms
    requires exists id :: id in w.mapped && id in w.timers && w.timers[id].expire == w.time + ms
    ensures (exists id :: id in w.mapped && id in f) <==> now >= w.time + ms
  {
    if now >= w.time + ms {
      var id :| id in w.mapped && id in w.timers && w.timers[id].expire == w.time + ms;
      assert InWheel(w, id);
      assert Due(w, id, now);
    }
  }

  // ---------------------------------------------------------------- when cancellation works

  /** The timer lies in the slot a cancellation would look in now. */
  ghost predicate Agrees(w: Wheel, id: Id) {
    && id in w.timers && w.time <= w.timers[id].expire
    && Has(w, SlotAt(w.cur, w.time, w.timers[id].expire), id)
  }

  /** Cancelling takes a registered timer out of the wheel exactly when its slot agrees. */
  lemma RemoveWorksIff(w: Wheel, id: Id)
    requires Inv(w) && id in w.mapped
    ensures Gone(RemoveTimer(w, id), id) <==> Agrees(w, id)
  {
    MappedIsPresent(w, id);
    RemoveKeepsInv(w, id);
    var w' := RemoveTimer(w, id);
    var n := SlotAt(w.cur, w.time, w.timers[id].expire);
    WithoutFacts(w.slots[n], id);
    var k :| Has(w, k, id);
    if !Agrees(w, id) {
      assert k != n;
      assert Has(w', k, id);
    } else {
      assert k == n;
      forall l ensures !Has(w', l, id) {}
    }
  }

  /** A cancelled timer's callback still runs, at the first tick that reaches its expiry, exactly
      when its slot did not agree at the time it was cancelled. */
  lemma CancelledFiresIff(w: Wheel, id: Id, w': Wheel, now: nat, f: seq<Id>)
    requires Inv(w) && id in w.mapped && id in w.timers && w.timers[id].expire <= now
    requires Inv(RemoveTimer(w, id)) && Ticked(RemoveTimer(w, id), w', now, f) && w.time <= now
    ensures id in f <==> !Agrees(w, id)
  {
    RemoveWorksIff(w, id);
    assert RemoveTimer(w, id).timers == w.timers && id < w.nextId;
  }

  lemma {:induction false} SlotAtAdvance(cur: nat, time: nat, expire: nat, k: nat)
    requires cur < SLOTS && time + k * SLOT_MS <= expire
    ensures SlotAt((cur + k) % SLOTS, time + k * SLOT_MS, expire) == SlotAt(cur, time, expire)
  {
    if k > 0 {
      SlotAtAdvance(cur, time, expire, k - 1);
      var c, t := (cur + (k - 1)) % SLOTS, time + (k - 1) * SLOT_MS;
      SlotAtNext(c, t, expire);
      NextSlot(cur + (k - 1));
      assert t + SLOT_MS == time + k * SLOT_MS;
    }
  }

  lemma NextSlot(n: nat)
    ensures (n % SLOTS + 1) % SLOTS == (n + 1) % SLOTS
  {
    SlotAdd(1, n);
  }

  /** A timer that does not fire keeps its agreement over a tick exactly when its milliseconds past
      the slot boundary are at least those the tick drops. */
  lemma AgreesAfterTickIff(w: Wheel, w': Wheel, now: nat, f: seq<Id>, id: Id)
    requires Inv(w) && w.time <= now && Ticked(w, w', now, f) && Agrees(w, id) && id !in f
    ensures Agrees(w', id) <==> (w.timers[id].expire - w.time) % SLOT_MS >= (now - w.time) % SLOT_MS
  {
    var e := w.timers[id].expire;
    assert Untouched(w, w', id);
    assert InWheel(w, id);
    assert now < e;
    SlotAfterTickIff(w.cur, w.time, now, e);
    var n := SlotAt(w.cur, w.time, e);
    assert Has(w', n, id);
  }

  /** Where a tick leaves the slot of an expiry time: unchanged exactly when the milliseconds it drops
      do not carry. */
  lemma SlotAfterTickIff(cur: nat, time: nat, now: nat, expire: nat)
    requires cur < SLOTS && time <= now <= expire
    ensures SlotAt((cur + (now - time) / SLOT_MS) % SLOTS, now, expire) == SlotAt(cur, time, expire)
      <==> (expire - time) % SLOT_MS >= (now - time) % SLOT_MS
  {
    var k, r := (now - time) / SLOT_MS, (now - time) % SLOT_MS;
    SlotAtAdvance(cur, time, expire, k);
    SlotAtDrift((cur + k) % SLOTS, time + k * SLOT_MS, r, expire);
    WholeSlotsLeaveRest(expire - time, k);
  }

  lemma WholeSlotsLeaveRest(d: nat, k: nat)
    requires k * SLOT_MS <= d
    ensures (d - k * SLOT_MS) % SLOT_MS == d % SLOT_MS
  {}

  /** The slots the wheel has moved in the first k steps: each tick drops what is left of its own
      milliseconds. */
  function Moved(states: seq<Wheel>, k: nat): nat
    requires k < |states|
  {
    if k == 0 then 0
    else
      var was, is_ := states[k - 1].time, states[k].time;
      Moved(states, k - 1) + (if is_ >= was then (is_ - was) / SLOT_MS else 0)
  }

  /** Registered for expire, in slot n. */
  ghost predicate LiesIn(w: Wheel, id: Id, expire: nat, n: nat) {
    id in w.mapped && id in w.timers && w.timers[id].expire == expire && Has(w, n, id)
  }

  lemma StepKeepsPlace(w: Wheel, a: Action, w': Wheel, id: Id, expire: nat, n: nat)
    requires Step(w, a, w') && LiesIn(w, id, expire, n) && a != Remove(id) && w'.time < expire
    ensures LiesIn(w', id, expire, n) && w.time <= w'.time
    ensures w'.cur == (w.cur + (w'.time - w.time) / SLOT_MS) % SLOTS
  {
    match a
    case Add(delay, repeats) => AddKeepsInv(w, delay, repeats);
    case Remove(x) => RemoveKeepsInv(w, x);
    case TickTo(now) =>
      var f :| Ticked(w, w', now, f);
      assert id !in f;
      assert Untouched(w, w', id);
  }

  lemma {:induction false} RunKeepsPlace(states: seq<Wheel>, acts: seq<Action>, id: Id, expire: nat, n: nat, k: nat)
    requires Run(states, acts) && Inv(states[0]) && LiesIn(states[0], id, expire, n) && k < |states|
    requires states[k].time < expire && forall a :: a in acts ==> a != Remove(id)
    ensures Inv(states[k]) && LiesIn(states[k], id, expire, n) && states[0].time <= states[k].time
    ensures states[k].cur == (states[0].cur + Moved(states, k)) % SLOTS
  {
    if k > 0 {
      assert StepAt(states, acts, k - 1);
      StepKeepsInv(states[k - 1], acts[k - 1], states[k]);
      RunKeepsPlace(states, acts, id, expire, n, k - 1);
      assert acts[k - 1] in acts;
      StepKeepsPlace(states[k - 1], acts[k - 1], states[k], id, expire, n);
      MovesAdd(states[0].cur, Moved(states, k - 1), (states[k].time - states[k - 1].time) / SLOT_MS);
    }
  }

  lemma MovesAdd(cur: nat, m: nat, d: nat)
    ensures ((cur + m) % SLOTS + d) % SLOTS == (cur + (m + d)) % SLOTS
  {
    SlotAdd(d, cur + m);
  }

  lemma SlotsApart(a: nat, b: nat)
    ensures a % SLOTS == b % SLOTS <==> exists k: int :: a == b + k * SLOTS
  {
    if a % SLOTS == b % SLOTS {
      assert a == b + (a / SLOTS - b / SLOTS) * SLOTS;
    }
    if k: int :| a == b + k * SLOTS {
      assert a / SLOTS == b / SLOTS + k;
    }
  }

  lemma CommonShift(c: nat, x: nat, y: nat)
    ensures (c + x) % SLOTS == (c + y) % SLOTS <==> x % SLOTS == y % SLOTS
  {
    SlotsApart(c + x, c + y);
    SlotsApart(x, y);
    if k: int :| c + x == c + y + k * SLOTS {
      assert x == y + k * SLOTS;
    }
    if k: int :| x == y + k * SLOTS {
      assert c + x == c + y + k * SLOTS;
    }
  }

  /** The slot of an expiry time counted from cur + m, with q whole slots to go, and the one counted
      from cur, with p to go, coincide when the moves make up for the shorter way. */
  lemma SlotsCoincideIff(cur: nat, m: nat, q: nat, p: nat)
    ensures ((cur + m) % SLOTS + q % SLOTS) % SLOTS == (cur + p % SLOTS) % SLOTS <==> (m + q) % SLOTS == p % SLOTS
  {
    MovesAdd(cur, m, q % SLOTS);
    CommonShift(cur, m + q % SLOTS, p % SLOTS);
    MovesAdd(0, q, m);
    MovesAdd(0, p, 0);
  }

  lemma SlotMovedIff(cur0: nat, time0: nat, m: nat, cur: nat, time: nat, expire: nat)
    requires cur == (cur0 + m) % SLOTS && time0 <= expire && time <= expire
    ensures SlotAt(cur, time, expire) == SlotAt(cur0, time0, expire)
      <==> (m + (expire - time) / SLOT_MS) % SLOTS == (expire - time0) / SLOT_MS % SLOTS
  {
    SlotsCoincideIff(cur0, m, (expire - time) / SLOT_MS, (expire - time0) / SLOT_MS);
  }

  /** A timer that lies in slot n is found exactly when the slot computed for it now is n. */
  lemma FoundIff(w: Wheel, id: Id, expire: nat, n: nat)
    requires Inv(w) && LiesIn(w, id, expire, n)
    ensures w.time < expire
    ensures Gone(RemoveTimer(w, id), id) <==> SlotAt(w.cur, w.time, expire) == n
  {
    MappedIsPresent(w, id);
    RemoveWorksIff(w, id);
    var m := SlotAt(w.cur, w.time, expire);
    assert Has(w, m, id) ==> m == n;
  }

  lemma FoundAfterMove(w: Wheel, id: Id, expire: nat, cur0: nat, time0: nat, m: nat)
    requires time0 <= expire && Inv(w) && LiesIn(w, id, expire, SlotAt(cur0, time0, expire))
    requires w.cur == (cur0 + m) % SLOTS
    ensures w.time < expire
    ensures Gone(RemoveTimer(w, id), id)
      <==> (m + (expire - w.time) / SLOT_MS) % SLOTS == (expire - time0) / SLOT_MS % SLOTS
  {
    FoundIff(w, id, expire, SlotAt(cur0, time0, expire));
    SlotMovedIff(cur0, time0, m, w.cur, w.time, expire);
  }

  /** Registered for expire, and where a cancellation would look. */
  ghost predicate WellPlaced(w: Wheel, id: Id, expire: nat) {
    w.time <= expire && LiesIn(w, id, expire, SlotAt(w.cur, w.time, expire))
  }

  lemma AddedIsWellPlaced(w: Wheel, delay: nat, repeats: bool)
    requires Inv(w)
    ensures var w' := AddTimer(w, delay, repeats);
      WellPlaced(w', w.nextId, w.time + (if delay == 0 then 1 else delay))
  {
    AddKeepsInv(w, delay, repeats);
  }

  /** Whether a cancellation reaches its timer, over any run: of a timer that lay where it should at the
      start, exactly when the slots the ticks have moved and the whole slots still to go are, modulo the
      size of the wheel, the whole slots there were to go at the start. */
  lemma CancellationWorksIff(states: seq<Wheel>, acts: seq<Action>, id: Id, expire: nat, k: nat)
    requires Run(states, acts) && Inv(states[0]) && WellPlaced(states[0], id, expire) && k < |states|
    requires states[k].time < expire && forall a :: a in acts ==> a != Remove(id)
    ensures Inv(states[k]) && id in states[k].mapped
    ensures Gone(RemoveTimer(states[k], id), id)
      <==> (Moved(states, k) + (expire - states[k].time) / SLOT_MS) % SLOTS
           == (expire - states[0].time) / SLOT_MS % SLOTS
  {
    var w0 := states[0];
    RunKeepsPlace(states, acts, id, expire, SlotAt(w0.cur, w0.time, expire), k);
    FoundAfterMove(states[k], id, expire, w0.cur, w0.time, Moved(states, k));
  }

  /** A repeating timer that fires agrees after the tick exactly when the tick was shorter than a
      slot, or its interval carries the dropped milliseconds. */
  lemma RearmedAgreesIff(w: Wheel, w': Wheel, now: nat, f: seq<Id>, id: Id)
    requires Inv(w) && w.time <= now && Ticked(w, w', now, f) && id in f
    requires id in w.timers && w.timers[id].repeats
    ensures var r := (now - w.time) % SLOT_MS;
      Agrees(w', id) <==> now - w.time < SLOT_MS || (w.timers[id].interval + r) % SLOT_MS >= r
  {
    var e := now + w.timers[id].interval;
    var k, r := (now - w.time) / SLOT_MS, (now - w.time) % SLOT_MS;
    assert FiredOne(w, w', now, id, BaseCur(w, now), BaseTime(w, now));
    var n := SlotAt(BaseCur(w, now), BaseTime(w, now), e);
    assert Has(w', n, id);
    if k >= 1 {
      SlotAtAdvance(w.cur, w.time, e, 1);
      SlotAtAdvance(w.cur, w.time, e, k);
      SlotAtDrift(w'.cur, w.time + k * SLOT_MS, r, e);
      assert e - (w.time + k * SLOT_MS) == w.timers[id].interval + r;
    } else {
      assert w'.cur == w.cur;
    }
  }

  /** Every timer in the wheel is registered and lies where a cancellation would look. */
  ghost predicate Tidy(w: Wheel) {
    && (forall k, id :: Has(w, k, id) ==> id in w.mapped)
    && (forall id :: id in w.mapped ==> Agrees(w, id))
  }

  ghost predicate WholeSlots(w: Wheel, a: Action) {
    a.TickTo? && w.time <= a.now ==> (a.now - w.time) % SLOT_MS == 0
  }

  lemma AddKeepsTidy(w: Wheel, delay: nat, repeats: bool)
    requires Inv(w) && Tidy(w)
    ensures Tidy(AddTimer(w, delay, repeats))
  {
    AddKeepsInv(w, delay, repeats);
    var w' := AddTimer(w, delay, repeats);
    forall id | id in w'.mapped ensures Agrees(w', id) {
      if id != w.nextId {
        assert Agrees(w, id);
        assert w'.timers[id] == w.timers[id];
      }
    }
  }

  lemma RemoveKeepsTidy(w: Wheel, id: Id)
    requires Inv(w) && Tidy(w)
    ensures Tidy(RemoveTimer(w, id))
  {
    RemoveKeepsInv(w, id);
    var w' := RemoveTimer(w, id);
    if id in w.mapped {
      RemoveWorksIff(w, id);
      forall k, x | Has(w', k, x) ensures x in w'.mapped {
        assert InWheel(w', x);
        assert x != id && Has(w, k, x);
      }
      forall x | x in w'.mapped ensures Agrees(w', x) {
        assert Agrees(w, x);
      }
    }
  }

  lemma TickKeepsTidy(w: Wheel, w': Wheel, now: nat, f: seq<Id>)
    requires Inv(w) && Tidy(w) && w.time <= now && Ticked(w, w', now, f) && (now - w.time) % SLOT_MS == 0
    ensures Tidy(w')
  {
    forall k, id | Has(w', k, id) ensures id in w'.mapped {
      if id in f {
        assert FiredOne(w, w', now, id, BaseCur(w, now), BaseTime(w, now));
        assert Due(w, id, now);
        assert InWheel(w', id);
      } else {
        assert Untouched(w, w', id);
        assert Has(w, k, id);
      }
    }
    forall id | id in w'.mapped ensures Agrees(w', id) {
      if id in f {
        assert FiredOne(w, w', now, id, BaseCur(w, now), BaseTime(w, now));
        RearmedAgreesIff(w, w', now, f, id);
      } else {
        assert Untouched(w, w', id);
        AgreesAfterTickIff(w, w', now, f, id);
      }
    }
  }

  /** While every tick advances by whole slots, the lists and the id table hold the same timers, each
      where a cancellation looks for it; so every cancellation works. */
  lemma {:induction false} WholeSlotRunsStayTidy(states: seq<Wheel>, acts: seq<Action>, k: nat)
    requires Run(states, acts) && Inv(states[0]) && Tidy(states[0]) && k < |states|
    requires forall i :: 0 <= i < |acts| ==> WholeSlots(states[i], acts[i])
    ensures Inv(states[k]) && Tidy(states[k])
    ensures forall id :: id in states[k].mapped ==> Gone(RemoveTimer(states[k], id), id)
  {
    if k > 0 {
      WholeSlotRunsStayTidy(states, acts, k - 1);
      var w, a, w' := states[k - 1], acts[k - 1], states[k];
      assert StepAt(states, acts, k - 1);
      assert WholeSlots(states[k - 1], acts[k - 1]);
      StepKeepsInv(w, a, w');
      match a
      case Add(delay, repeats) => AddKeepsTidy(w, delay, repeats);
      case Remove(id) => RemoveKeepsTidy(w, id);
      case TickTo(now) =>
        var f :| Ticked(w, w', now, f);
        TickKeepsTidy(w, w', now, f);
    }
    forall id | id in states[k].mapped ensures Gone(RemoveTimer(states[k], id), id) {
      RemoveWorksIff(states[k], id);
    }
  }

  /** A timer added at time 0 for 1500 ms and cancelled after a tick at 900 ms stays in slot 1, since
      the cancellation looks in slot 0; its callback runs at the tick at 1500 ms. */
  lemma DriftStrandsATimer(w0: Wheel, w2: Wheel, f: seq<Id>, w4: Wheel, g: seq<Id>)
    requires w0 == Wheel(seq(SLOTS, i => []), 0, 0, map[], {}, 1, []) && Inv(w0)
    requires Inv(AddTimer(w0, 1500, false)) && Ticked(AddTimer(w0, 1500, false), w2, 900, f)
    requires Inv(w2) && w2.time == 900 && Ticked(RemoveTimer(w2, 1), w4, 1500, g)
    ensures 1 !in RemoveTimer(w2, 1).mapped && 1 in g
  {
    var w1 := AddTimer(w0, 1500, false);
    AddKeepsInv(w0, 1500, false);
    RemoveKeepsInv(w2, 1);
    assert Agrees(w1, 1);
    assert 1 !in f;
    assert Untouched(w1, w2, 1);
    AgreesAfterTickIff(w1, w2, 900, f, 1);
    CancelledFiresIff(w2, 1, w4, 1500, g);
  }
}

/** The timer wheel of src/timer_wheel.cc and src/timer.cc as code. The Timer objects that the lists
    and the id table share are the entries of the field timers. */
module TimerWheelCode {
  import opened TimerWheelSpec

  /** How many slots after cur the scan reaches slot k. */
  function StepsTo(cur: nat, k: nat): nat
    requires cur < SLOTS && k < SLOTS
  {
    if k >= cur then k - cur else k + SLOTS - cur
  }

  class TimerWheel {
    var slots: seq<seq<Id>>
    var currentSlot: nat
    var currentTime: nat
    var timers: map<Id, Timer>
    var timerMap: set<Id>
    var nextTimerId: nat
    var fired: seq<Id>

    ghost function Abs(): Wheel
      reads this
    {
      Wheel(slots, currentSlot, currentTime, timers, timerMap, nextTimerId, fired)
    }

    constructor (now: nat)
      ensures Inv(Abs()) && currentTime == now && timerMap == {} && fired == []
      ensures forall k :: 0 <= k < SLOTS ==> slots[k] == []
    {
      slots := seq(SLOTS, i => []);
      currentSlot, currentTime, nextTimerId := 0, now, 1;
      timers, timerMap, fired := map[], {}, [];
    }

    method CalculateSlot(expire: nat) returns (slot: nat)
      requires currentTime <= expire
      ensures slot == SlotAt(currentSlot, currentTime, expire)
    {
      var delta := expire - currentTime;
      var offset := (delta / SLOT_MS) % SLOTS;
      slot := (currentSlot + offset) % SLOTS;
    }

    method AddTimer(delayMs: nat, repeats: bool) returns (id: Id)
      requires Inv(Abs())
      modifies this
      ensures id == old(nextTimerId) && Abs() == TimerWheelSpec.AddTimer(old(Abs()), delayMs, repeats)
      ensures Inv(Abs())
    {
      AddKeepsInv(Abs(), delayMs, repeats);
      var d := if delayMs == 0 then 1 else delayMs;
      id := nextTimerId;
      nextTimerId := nextTimerId + 1;
      var expire := currentTime + d;
      timers := timers[id := Timer(expire, repeats, if repeats then d else 0)];
      var slot := CalculateSlot(expire);
      slots := slots[slot := slots[slot] + [id]];
      timerMap := timerMap + {id};
    }

    method RemoveTimer(id: Id)
      requires Inv(Abs())
      modifies this
      ensures Abs() == TimerWheelSpec.RemoveTimer(old(Abs()), id) && Inv(Abs())
    {
      RemoveKeepsInv(Abs(), id);
      if id in timerMap {
        MappedIsPresent(Abs(), id);
        var slot := CalculateSlot(timers[id].expire);
        slots := slots[slot := Without(slots[slot], id)];
        timerMap := timerMap - {id};
      }
    }

    /** The body of the inner loop for a due timer; it is erased from the list it is found in before
        it is re-armed, possibly at the back of the same list. */
    method Fire(slot: nat, it: nat, now: nat)
      requires Shape(Abs()) && currentTime <= now && slot < SLOTS && it < |slots[slot]|
      requires slots[slot][it] in timers
      modifies `slots, `timers, `timerMap, `fired
      ensures Abs() == FireAt(old(Abs()), now, slot, it)
    {
      var id := slots[slot][it];
      var timer := timers[id];
      fired := fired + [id];
      slots := slots[slot := RemoveAt(slots[slot], it)];
      if timer.repeats {
        timers := timers[id := timer.(expire := now + timer.interval)];
        var newSlot := CalculateSlot(timers[id].expire);
        slots := slots[newSlot := slots[newSlot] + [id]];
      } else {
        timerMap := timerMap - {id};
      }
    }

    /** Walks one list, which grows at its back while it is walked. */
    method ScanSlot(slot: nat, now: nat, ghost w0: Wheel, ghost f0: seq<Id>) returns (ghost f: seq<Id>)
      requires slot < SLOTS && currentTime <= now
      requires Fired(w0, Abs(), now, f0, currentSlot, currentTime)
      modifies `slots, `timers, `timerMap, `fired
      ensures Fired(w0, Abs(), now, f, currentSlot, currentTime)
      ensures ScannedOne(old(Abs()), Abs(), slot, now, f0, f)
    {
      f := f0;
      var it := 0;
      while it < |slots[slot]|
        invariant Fired(w0, Abs(), now, f, currentSlot, currentTime)
        invariant ClearTo(Abs(), slot, it, now) && forall k :: Clear(old(Abs()), k, now) ==> Clear(Abs(), k, now)
        invariant f + DueOf(timers, slots[slot][it..], now) == f0 + DueOf(old(timers), old(slots)[slot], now)
        invariant forall k: nat :: k < SLOTS && k != slot ==>
          DueOf(timers, slots[k], now) == DueOf(old(timers), old(slots)[k], now)
        decreases DueSet(Abs(), now), |slots[slot]| - it
      {
        var id := slots[slot][it];
        assert Has(Abs(), slot, id);
        if timers[id].expire <= now {
          ghost var w := Abs();
          FireAtShrinksDue(w, now, slot, it);
          FireAtKeepsFired(w0, w, now, f, slot, it);
          FireAtKeepsOrder(w, now, slot, it);
          NextFired(f, id, DueOf(FireAt(w, now, slot, it).timers, FireAt(w, now, slot, it).slots[slot][it..], now));
          f := f + [id];
          Fire(slot, it, now);
          FireKeepsClear(w, now, slot, it);
        } else {
          assert slots[slot][it..][1..] == slots[slot][it + 1..];
          it := it + 1;
        }
      }
      assert f + DueOf(timers, [], now) == f;
    }

    /** The scan of slot number i, counted from the current one. */
    method ScanNext(i: nat, now: nat, ghost w0: Wheel, ghost f0: seq<Id>) returns (ghost f: seq<Id>)
      requires i < SLOTS && currentTime <= now && Fired(w0, Abs(), now, f0, currentSlot, currentTime)
      requires Scanned(w0, Abs(), currentSlot, now, i) && f0 == FiringOrder(w0, currentSlot, now, i)
      modifies `slots, `timers, `timerMap, `fired
      ensures Fired(w0, Abs(), now, f, currentSlot, currentTime)
      ensures Scanned(w0, Abs(), currentSlot, now, i + 1) && f == FiringOrder(w0, currentSlot, now, i + 1)
    {
      ghost var w := Abs();
      var slot := (currentSlot + i) % SLOTS;
      f := ScanSlot(slot, now, w0, f0);
      OneSlotFurther(w0, w, Abs(), currentSlot, now, i, slot, f0, f);
    }

    method ProcessExpiredTimers(now: nat) returns (ghost f: seq<Id>)
      requires Shape(Abs()) && currentTime <= now
      modifies `slots, `timers, `timerMap, `fired
      ensures Fired(old(Abs()), Abs(), now, f, currentSlot, currentTime) && NothingDue(Abs(), now)
      ensures f == ScanOrder(old(Abs()), currentSlot, now)
    {
      ghost var w0 := Abs();
      FiredNone(w0, now);
      f := [];
      for i := 0 to SLOTS
        invariant Fired(w0, Abs(), now, f, currentSlot, currentTime)
        invariant Scanned(w0, Abs(), currentSlot, now, i) && f == FiringOrder(w0, currentSlot, now, i)
      {
        f := ScanNext(i, now, w0, f);
      }
      ScannedAll(w0, Abs(), currentSlot, now);
    }

    method Tick(now: nat) returns (ghost f: seq<Id>)
      requires Inv(Abs()) && currentTime <= now
      modifies this
      ensures Ticked(old(Abs()), Abs(), now, f) && Inv(Abs())
    {
      ghost var w0 := Abs();
      var elapsed := now - currentTime;
      var slotsToAdvance := elapsed / SLOT_MS;
      f := AdvanceSlots(slotsToAdvance, now);
      f := AdvanceAndScan(currentSlot, now, now, w0, slotsToAdvance == 0, f);
      FiredAllDue(w0, Abs(), now, f, BaseCur(w0, now), BaseTime(w0, now));
      TickKeepsInv(w0, Abs(), now, f);
    }

    /** The loop of Tick: slot by slot, with a scan after each. */
    method AdvanceSlots(n: nat, now: nat) returns (ghost f: seq<Id>)
      requires Inv(Abs()) && currentTime + n * SLOT_MS <= now
      modifies this
      ensures Shape(Abs()) && currentTime == old(currentTime) + n * SLOT_MS
      ensures currentSlot == (old(currentSlot) + n) % SLOTS
      ensures n == 0 ==> Abs() == old(Abs())
      ensures n > 0 ==> NothingDue(Abs(), now)
      ensures n > 0 ==> Fired(old(Abs()), Abs(), now, f, BaseCur(old(Abs()), now), BaseTime(old(Abs()), now))
      ensures n > 0 ==> f == ScanOrder(old(Abs()), BaseCur(old(Abs()), now), now)
    {
      ghost var w0 := Abs();
      f := [];
      for i := 0 to n
        invariant Shape(Abs()) && Advanced(w0, Abs(), now, i, f)
      {
        f := AdvanceOne(i, now, w0, f);
      }
    }

    /** One turn of that loop. */
    method AdvanceOne(ghost i: nat, now: nat, ghost w0: Wheel, ghost f0: seq<Id>) returns (ghost f: seq<Id>)
      requires Shape(Abs()) && w0.cur < SLOTS && w0.time + (i + 1) * SLOT_MS <= now
      requires Advanced(w0, Abs(), now, i, f0)
      modifies this
      ensures Shape(Abs()) && Advanced(w0, Abs(), now, i + 1, f)
    {
      OneSlotOn(w0.cur, i);
      f := AdvanceAndScan((currentSlot + 1) % SLOTS, currentTime + SLOT_MS, now, w0, i == 0, f0);
    }

    /** Set the wheel's slot and clock and scan. Only the first scan of a tick can find timers due. */
    method AdvanceAndScan(slot: nat, time: nat, now: nat, ghost w0: Wheel, ghost first: bool, ghost f0: seq<Id>)
      returns (ghost f: seq<Id>)
      requires Shape(Abs()) && slot < SLOTS && time <= now && w0.time <= now && w0.cur < SLOTS
      requires if first then Abs() == w0 && slot == BaseCur(w0, now) && time == BaseTime(w0, now)
               else Fired(w0, Abs(), now, f0, BaseCur(w0, now), BaseTime(w0, now)) && NothingDue(Abs(), now)
      requires !first ==> f0 == ScanOrder(w0, BaseCur(w0, now), now)
      modifies this
      ensures f == ScanOrder(w0, BaseCur(w0, now), now)
      ensures Fired(w0, Abs(), now, f, BaseCur(w0, now), BaseTime(w0, now)) && NothingDue(Abs(), now)
      ensures currentSlot == slot && currentTime == time
    {
      ghost var w := Abs();
      currentSlot := slot;
      currentTime := time;
      ghost var w1 := Abs();
      assert Shape(w1) by {
        FiredNone(w, w.time);
        FiredIgnoresLaterClock(w, w, w1, w.time, [], w.cur, w.time);
      }
      f := ProcessExpiredTimers(now);
      FiredIgnoresClock(w1, w, Abs(), now, f, slot, time);
      if first {
        OrderIgnoresClock(w0, w1, slot, now, |w0.slots|);
      } else {
        FiredThenNothing(w0, w, Abs(), now, f0, f, BaseCur(w0, now), BaseTime(w0, now), slot, time);
        f := f0;
      }
    }

    /** The milliseconds until the next timer, -1 when there is none. */
    method GetNextTimeout() returns (ms: int)
      requires Inv(Abs())
      ensures ms == -1 <==> timerMap == {}
      ensures ms != -1 ==> ms >= 1
      ensures ms != -1 ==> forall id :: id in timerMap ==> id in timers && timers[id].expire >= currentTime + ms
      ensures ms != -1 ==> exists id :: id in timerMap && id in timers && timers[id].expire == currentTime + ms
    {
      if timerMap == {} {
        return -1;
      }
      var rest := timerMap;
      var first :| first in rest;
      MappedIsPresent(Abs(), first);
      var minExpire := timers[first].expire;
      ghost var best := first;
      rest := rest - {first};
      while rest != {}
        invariant rest <= timerMap && best in timerMap && best in timers && timers[best].expire == minExpire
        invariant forall id :: id in timerMap && id !in rest ==> id in timers && timers[id].expire >= minExpire
        decreases rest
      {
        var id :| id in rest;
        MappedIsPresent(Abs(), id);
        if timers[id].expire < minExpire {
          minExpire := timers[id].expire;
          best := id;
        }
        rest := rest - {id};
      }
      MappedIsPresent(Abs(), best);
      if minExpire <= currentTime {
        return 0;
      }
      var timeout := minExpire - currentTime;
      ms := if timeout < 1 then 1 else timeout;
    }
  }

  lemma NextFired(f: seq<Id>, id: Id, rest: seq<Id>)
    ensures f + ([id] + rest) == f + [id] + rest
  {}

  /** After i slots of a tick, each with its scan. */
  ghost predicate Advanced(w0: Wheel, w: Wheel, now: nat, i: nat, f: seq<Id>)
    requires w0.time <= now && w0.cur < SLOTS
  {
    && w.cur == (w0.cur + i) % SLOTS && w.time == w0.time + i * SLOT_MS
    && (i == 0 ==> w == w0)
    && (i > 0 ==>
         && Fired(w0, w, now, f, BaseCur(w0, now), BaseTime(w0, now)) && NothingDue(w, now)
         && f == ScanOrder(w0, BaseCur(w0, now), now))
  }

  lemma OneSlotOn(cur: nat, i: nat)
    ensures ((cur + i) % SLOTS + 1) % SLOTS == (cur + (i + 1)) % SLOTS
  {
    SlotAdd(1, cur + i);
  }

  /** The walk of list slot: nothing due is left in it, f has grown by what was due, front to back, and
      no other list has gained or lost anything due. */
  ghost predicate ScannedOne(w: Wheel, w': Wheel, slot: nat, now: nat, f: seq<Id>, f': seq<Id>) {
    && slot < SLOTS && |w.slots| == |w'.slots| == SLOTS && Clear(w', slot, now)
    && f' == f + DueOf(w.timers, w.slots[slot], now)
    && (forall k :: Clear(w, k, now) ==> Clear(w', k, now))
    && (forall k: nat :: k < SLOTS && k != slot ==>
          DueOf(w'.timers, w'.slots[k], now) == DueOf(w.timers, w.slots[k], now))
  }

  /** The first i lists from slot cur on have nothing due left; the others have what they had. */
  ghost predicate Scanned(w0: Wheel, w: Wheel, cur: nat, now: nat, i: nat)
    requires |w0.slots| == |w.slots| == SLOTS && cur < SLOTS
  {
    forall k: nat :: k < SLOTS ==>
      if StepsTo(cur, k) < i then Clear(w, k, now)
      else DueOf(w.timers, w.slots[k], now) == DueOf(w0.timers, w0.slots[k], now)
  }

  lemma ScannedAll(w0: Wheel, w: Wheel, cur: nat, now: nat)
    requires |w0.slots| == |w.slots| == SLOTS && cur < SLOTS && Scanned(w0, w, cur, now, SLOTS)
    ensures NothingDue(w, now)
  {
    forall k: nat, id | Has(w, k, id) && id in w.timers ensures w.timers[id].expire > now {
      assert StepsTo(cur, k) < SLOTS;
      assert Clear(w, k, now);
    }
  }

  lemma StepsBack(cur: nat, i: nat)
    requires cur < SLOTS && i < SLOTS
    ensures StepsTo(cur, (cur + i) % SLOTS) == i
    ensures forall k: nat :: k < SLOTS && StepsTo(cur, k) == i ==> k == (cur + i) % SLOTS
  {}

  lemma OneSlotFurther(w0: Wheel, w: Wheel, w': Wheel, cur: nat, now: nat, i: nat, slot: nat,
                       f: seq<Id>, f': seq<Id>)
    requires |w0.slots| == |w.slots| == |w'.slots| == SLOTS && cur < SLOTS && i < SLOTS
    requires slot == (cur + i) % SLOTS && ScannedOne(w, w', slot, now, f, f')
    requires Scanned(w0, w, cur, now, i) && f == FiringOrder(w0, cur, now, i)
    ensures Scanned(w0, w', cur, now, i + 1) && f' == FiringOrder(w0, cur, now, i + 1)
  {
    StepsBack(cur, i);
    forall k: nat | k < SLOTS
      ensures if StepsTo(cur, k) < i + 1 then Clear(w', k, now)
              else DueOf(w'.timers, w'.slots[k], now) == DueOf(w0.timers, w0.slots[k], now)
    {
      if StepsTo(cur, k) == i {
        assert k == slot;
      }
    }
  }

  lemma {:induction false} OrderIgnoresClock(w: Wheel, w': Wheel, cur: nat, now: nat, i: nat)
    requires |w.slots| == SLOTS && w'.slots == w.slots && w'.timers == w.timers
    ensures FiringOrder(w', cur, now, i) == FiringOrder(w, cur, now, i)
  {
    if i > 0 {
      OrderIgnoresClock(w, w', cur, now, i - 1);
    }
  }
}

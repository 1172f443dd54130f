/** The timer wheel of src/timer_wheel.cc as a value, what one firing does to it, and what follows
    for whole ticks and whole runs. Firing looks at every slot, so slots matter to cancellation only. */
module TimerWheelSpec {
  import opened Prelude


  type Id = nat

  const SLOTS: nat := 60
  const SLOT_MS: nat := 1000

  /** A Timer object; the wheel's lists and its id table share it, so it lives in one place. */
  datatype Timer = Timer(expire: nat, repeats: bool, interval: nat)

  /** slots holds the lists of the wheel, mapped the keys of timer_map_, timers the Timer object of
      every id still referred to, fired the ids whose callback has run, in order. */
  datatype Wheel = Wheel(
    slots: seq<seq<Id>>,
    cur: nat,
    time: nat,
    timers: map<Id, Timer>,
    mapped: set<Id>,
    nextId: nat,
    fired: seq<Id>
  )

  ghost predicate NoDup(l: seq<Id>) {
    forall i, j :: 0 <= i < j < |l| ==> l[i] != l[j]
  }

  ghost predicate Has(w: Wheel, k: nat, id: Id) {
    k < |w.slots| && id in w.slots[k]
  }

  ghost predicate InWheel(w: Wheel, id: Id) {
    exists k :: Has(w, k, id)
  }

  /** Every list entry has its Timer object, and no timer is in the wheel twice. */
  ghost predicate Shape(w: Wheel) {
    && |w.slots| == SLOTS && w.cur < SLOTS
    && (forall k {:trigger w.slots[k]} :: 0 <= k < SLOTS ==> NoDup(w.slots[k]))
    && (forall k, l, id :: Has(w, k, id) && Has(w, l, id) ==> k == l)
    && (forall k, id :: Has(w, k, id) ==> id in w.timers)
    && (forall id :: id in w.timers ==> id < w.nextId && (w.timers[id].repeats ==> w.timers[id].interval >= 1))
  }

  ghost predicate Due(w: Wheel, id: Id, now: nat) {
    InWheel(w, id) && id in w.timers && w.timers[id].expire <= now
  }

  ghost predicate NothingDue(w: Wheel, now: nat) {
    forall k, id :: Has(w, k, id) && id in w.timers ==> w.timers[id].expire > now
  }

  /** Between operations: registered timers are in the wheel, and nothing in it is due. */
  ghost predicate Inv(w: Wheel) {
    && Shape(w)
    && (forall id :: id in w.mapped ==> InWheel(w, id))
    && NothingDue(w, w.time)
  }

  // ---------------------------------------------------------------- slots

  /** CalculateSlot, for a current slot and time. */
  function SlotAt(cur: nat, time: nat, expire: nat): (k: nat)
    requires time <= expire
    ensures k < SLOTS
  {
    (cur + ((expire - time) / SLOT_MS) % SLOTS) % SLOTS
  }

  /** Whole turns of the wheel do not matter. */
  lemma SlotAdd(a: nat, b: nat)
    ensures (a + b % SLOTS) % SLOTS == (a + b) % SLOTS
  {
    ModAddPeriod(a + b % SLOTS, b / SLOTS, SLOTS);
  }

  /** A timer belongs to the slot the wheel reaches after the whole seconds still to go. */
  lemma SlotIsReached(cur: nat, time: nat, expire: nat)
    requires time <= expire
    ensures SlotAt(cur, time, expire) == (cur + (expire - time) / 1000) % 60
  {
    SlotAdd(cur, (expire - time) / SLOT_MS);
  }

  /** Advancing by one whole slot moves the current slot and the offset against each other. */
  lemma SlotAtNext(cur: nat, time: nat, expire: nat)
    requires time + SLOT_MS <= expire
    ensures SlotAt((cur + 1) % SLOTS, time + SLOT_MS, expire) == SlotAt(cur, time, expire)
  {
    var d := expire - time;
    var q := (d - SLOT_MS) / SLOT_MS;
    assert q == d / SLOT_MS - 1;
    SlotAdd((cur + 1) % SLOTS, q);
    SlotAdd(q, cur + 1);
    SlotAdd(cur, q + 1);
  }

  /** Dropping r milliseconds of the elapsed time leaves a timer's slot right exactly when its own
      milliseconds past the slot boundary are at least r. */
  lemma SlotAtDrift(cur: nat, time: nat, r: nat, expire: nat)
    requires r < SLOT_MS && time + r <= expire
    ensures SlotAt(cur, time + r, expire) == SlotAt(cur, time, expire) <==> (expire - time) % SLOT_MS >= r
  {
    var d := expire - time;
    var q, m := d / SLOT_MS, d % SLOT_MS;
    if m >= r {
      assert (d - r) / SLOT_MS == q;
    } else {
      assert (d - r) / SLOT_MS == q - 1;
    }
  }

  // ---------------------------------------------------------------- firing one timer

  function RemoveAt(l: seq<Id>, j: nat): seq<Id>
    requires j < |l|
  {
    l[..j] + l[j + 1..]
  }

  lemma RemoveAtFacts(l: seq<Id>, j: nat)
    requires j < |l| && NoDup(l)
    ensures NoDup(RemoveAt(l, j))
    ensures forall x :: x in RemoveAt(l, j) <==> x in l && x != l[j]
  {
    var r := RemoveAt(l, j);
    forall x ensures x in r <==> x in l && x != l[j] {
      if x in l && x != l[j] {
        var i :| 0 <= i < |l| && l[i] == x;
        assert r[if i < j then i else i - 1] == x;
      }
      if x in r {
        var i :| 0 <= i < |r| && r[i] == x;
        assert l[if i < j then i else i + 1] == x;
      }
    }
  }

  /** One due timer: its callback runs, its node leaves the list, and it is either re-armed at the
      back of a list or forgotten. */
  function FireAt(w: Wheel, now: nat, k: nat, j: nat): Wheel
    requires k < |w.slots| == SLOTS && j < |w.slots[k]| && w.slots[k][j] in w.timers && w.time <= now
  {
    var id := w.slots[k][j];
    var t := w.timers[id];
    var w1 := w.(fired := w.fired + [id], slots := w.slots[k := RemoveAt(w.slots[k], j)]);
    if t.repeats then
      var n := SlotAt(w.cur, w.time, now + t.interval);
      w1.(timers := w.timers[id := t.(expire := now + t.interval)],
          slots := w1.slots[n := w1.slots[n] + [id]])
    else
      w1.(mapped := w.mapped - {id})
  }

  // ---------------------------------------------------------------- in which order

  /** The due timers of a list, front to back. */
  function DueOf(timers: map<Id, Timer>, l: seq<Id>, now: nat): seq<Id> {
    if l == [] then []
    else (if l[0] in timers && timers[l[0]].expire <= now then [l[0]] else []) + DueOf(timers, l[1..], now)
  }

  /** The due timers of the first i lists from slot cur on. */
  function FiringOrder(w: Wheel, cur: nat, now: nat, i: nat): seq<Id>
    requires |w.slots| == SLOTS
  {
    if i == 0 then []
    else FiringOrder(w, cur, now, i - 1) + DueOf(w.timers, w.slots[(cur + i - 1) % SLOTS], now)
  }

  /** The order in which a scan that starts at slot cur fires what is due. */
  function ScanOrder(w: Wheel, cur: nat, now: nat): seq<Id>
    requires |w.slots| == SLOTS
  {
    FiringOrder(w, cur, now, |w.slots|)
  }

  lemma {:induction false} DueOfOthers(timers: map<Id, Timer>, timers': map<Id, Timer>, l: seq<Id>, id: Id, now: nat)
    requires id !in l
    requires forall x :: x != id ==> (x in timers <==> x in timers') && (x in timers ==> timers'[x] == timers[x])
    ensures DueOf(timers', l, now) == DueOf(timers, l, now)
  {
    if l != [] {
      assert l[0] in l;
      DueOfOthers(timers, timers', l[1..], id, now);
    }
  }

  lemma {:induction false} DueOfAppend(timers: map<Id, Timer>, l: seq<Id>, x: Id, now: nat)
    requires x in timers && timers[x].expire > now
    ensures DueOf(timers, l + [x], now) == DueOf(timers, l, now)
  {
    if l == [] {
      assert [x][1..] == [];
    } else {
      assert (l + [x])[1..] == l[1..] + [x];
      DueOfAppend(timers, l[1..], x, now);
    }
  }

  /** A list that does not hold id, and to the back of which id, no longer due, may have been added. */
  lemma DueOfRearmed(timers: map<Id, Timer>, timers': map<Id, Timer>, l: seq<Id>, l': seq<Id>, id: Id, now: nat)
    requires id !in l && (l' == l || (l' == l + [id] && id in timers' && timers'[id].expire > now))
    requires forall x :: x != id ==> (x in timers <==> x in timers') && (x in timers ==> timers'[x] == timers[x])
    ensures DueOf(timers', l', now) == DueOf(timers, l, now)
  {
    DueOfOthers(timers, timers', l, id, now);
    if l' != l {
      DueOfAppend(timers', l, id, now);
    }
  }

  /** A firing takes the front of what is still due in the walked list, and leaves what is due in the
      other lists. */
  lemma FireAtKeepsOrder(w: Wheel, now: nat, k: nat, j: nat)
    requires Shape(w) && w.time <= now && k < SLOTS && j < |w.slots[k]|
    requires w.slots[k][j] in w.timers && w.timers[w.slots[k][j]].expire <= now
    ensures var w' := FireAt(w, now, k, j);
      && |w'.slots| == SLOTS && j <= |w'.slots[k]|
      && DueOf(w.timers, w.slots[k][j..], now) == [w.slots[k][j]] + DueOf(w'.timers, w'.slots[k][j..], now)
      && forall l: nat :: l < SLOTS && l != k ==> DueOf(w'.timers, w'.slots[l], now) == DueOf(w.timers, w.slots[l], now)
  {
    var w' := FireAt(w, now, k, j);
    var id, list := w.slots[k][j], w.slots[k];
    assert NoDup(list);
    assert id !in list[j + 1..];
    assert list[j..] == [id] + list[j + 1..];
    assert RemoveAt(list, j)[j..] == list[j + 1..];
    assert w'.slots[k][j..] == list[j + 1..] || w'.slots[k][j..] == list[j + 1..] + [id];
    DueOfRearmed(w.timers, w'.timers, list[j + 1..], w'.slots[k][j..], id, now);
    forall l: nat | l < SLOTS && l != k
      ensures DueOf(w'.timers, w'.slots[l], now) == DueOf(w.timers, w.slots[l], now)
    {
      assert Has(w, k, id) && !Has(w, l, id);
      DueOfRearmed(w.timers, w'.timers, w.slots[l], w'.slots[l], id, now);
    }
  }

  /** From w0 to w exactly the timers f have fired, once each and in that order; the repeating ones
      are armed again for now + interval, in the slot counted from cur and time; the others are gone;
      no other timer has been touched. */
  ghost predicate Fired(w0: Wheel, w: Wheel, now: nat, f: seq<Id>, cur: nat, time: nat)
    requires time <= now
  {
    && Shape(w0) && Shape(w) && w.nextId == w0.nextId
    && w.fired == w0.fired + f && NoDup(f)
    && w.timers.Keys == w0.timers.Keys
    && (forall id :: id in f ==> Due(w0, id, now) && FiredOne(w0, w, now, id, cur, time))
    && (forall id :: id !in f ==> Untouched(w0, w, id))
  }

  ghost predicate FiredOne(w0: Wheel, w: Wheel, now: nat, id: Id, cur: nat, time: nat)
    requires time <= now
  {
    && id in w0.timers && id in w.timers
    && var t := w0.timers[id];
    if t.repeats then
      && w.timers[id] == t.(expire := now + t.interval)
      && Has(w, SlotAt(cur, time, now + t.interval), id)
      && (id in w.mapped <==> id in w0.mapped)
    else
      && w.timers[id] == t && !InWheel(w, id) && id !in w.mapped
  }

  ghost predicate Untouched(w0: Wheel, w: Wheel, id: Id) {
    && (id in w0.timers ==> id in w.timers && w.timers[id] == w0.timers[id])
    && (id in w.mapped <==> id in w0.mapped)
    && (forall k :: Has(w, k, id) <==> Has(w0, k, id))
  }

  lemma FiredNone(w: Wheel, now: nat)
    requires Shape(w) && w.time <= now
    ensures Fired(w, w, now, [], w.cur, w.time)
  {
    assert w.fired + [] == w.fired;
  }

  /** What one firing does to the lists. */
  lemma FireAtLists(w: Wheel, now: nat, k: nat, j: nat)
    requires Shape(w) && w.time <= now && k < SLOTS && j < |w.slots[k]|
    ensures w.slots[k][j] in w.timers
    ensures var w' := FireAt(w, now, k, j);
      var id := w.slots[k][j];
      var t := w.timers[id];
      && (forall l, x :: x != id ==> (Has(w', l, x) <==> Has(w, l, x)))
      && (forall l :: Has(w', l, id) <==> t.repeats && l == SlotAt(w.cur, w.time, now + t.interval))
  {
    var id := w.slots[k][j];
    assert Has(w, k, id);
    var w' := FireAt(w, now, k, j);
    RemoveAtFacts(w.slots[k], j);
    var t := w.timers[id];
    forall l: nat, x ensures x != id ==> (Has(w', l, x) <==> Has(w, l, x)) {}
    forall l: nat ensures Has(w', l, id) <==> t.repeats && l == SlotAt(w.cur, w.time, now + t.interval) {
      if l != k {
        assert !Has(w, l, id);
      }
    }
  }

  lemma FireAtShape(w: Wheel, now: nat, k: nat, j: nat)
    requires Shape(w) && w.time <= now && k < SLOTS && j < |w.slots[k]|
    ensures w.slots[k][j] in w.timers && Shape(FireAt(w, now, k, j))
  {
    FireAtLists(w, now, k, j);
    var w' := FireAt(w, now, k, j);
    var id := w.slots[k][j];
    RemoveAtFacts(w.slots[k], j);
    assert Has(w, k, id);
    forall l | 0 <= l < SLOTS ensures NoDup(w'.slots[l]) {
      assert NoDup(w.slots[l]);
      if l != k {
        assert !Has(w, l, id);
      }
    }
    forall l, m, x | Has(w', l, x) && Has(w', m, x) ensures l == m {
      if x != id {
        assert Has(w, l, x) && Has(w, m, x);
      }
    }
    forall l, x | Has(w', l, x) ensures x in w'.timers {
      if x != id {
        assert Has(w, l, x);
      }
    }
  }

  lemma FireAtKeepsFired(w0: Wheel, w: Wheel, now: nat, f: seq<Id>, k: nat, j: nat)
    requires w.time <= now && Fired(w0, w, now, f, w.cur, w.time)
    requires k < SLOTS && j < |w.slots[k]| && w.slots[k][j] in w.timers && w.timers[w.slots[k][j]].expire <= now
    ensures Fired(w0, FireAt(w, now, k, j), now, f + [w.slots[k][j]], w.cur, w.time)
  {
    var id := w.slots[k][j];
    var w' := FireAt(w, now, k, j);
    FireAtShape(w, now, k, j);
    FireAtLists(w, now, k, j);
    assert Has(w, k, id);
    assert id in f ==> FiredOne(w0, w, now, id, w.cur, w.time);
    assert id !in f;
    assert Untouched(w0, w, id);
    assert Has(w0, k, id);
    assert FiredOne(w0, w', now, id, w.cur, w.time);
    forall x | x in f + [id] ensures Due(w0, x, now) && FiredOne(w0, w', now, x, w.cur, w.time) {
      if x != id {
        assert FiredOne(w0, w, now, x, w.cur, w.time);
        OtherStaysFired(w0, w, w', now, x, id, w.cur, w.time);
      }
    }
    forall x | x !in f + [id] ensures Untouched(w0, w', x) {
      assert Untouched(w0, w, x);
    }
    assert w'.fired == w0.fired + (f + [id]);
  }

  lemma OtherStaysFired(w0: Wheel, w: Wheel, w': Wheel, now: nat, x: Id, id: Id, cur: nat, time: nat)
    requires time <= now && x != id && FiredOne(w0, w, now, x, cur, time)
    requires forall l :: Has(w', l, x) <==> Has(w, l, x)
    requires x in w'.timers && w'.timers[x] == w.timers[x] && (x in w'.mapped <==> x in w.mapped)
    ensures FiredOne(w0, w', now, x, cur, time)
  {}

  /** The ids still due; each firing takes one out, which is why the scan ends. */
  ghost function DueSet(w: Wheel, now: nat): set<Id> {
    set id | id in w.timers && Due(w, id, now)
  }

  lemma FireAtShrinksDue(w: Wheel, now: nat, k: nat, j: nat)
    requires Shape(w) && w.time <= now && k < SLOTS && j < |w.slots[k]|
    requires w.slots[k][j] in w.timers && w.timers[w.slots[k][j]].expire <= now
    ensures DueSet(FireAt(w, now, k, j), now) == DueSet(w, now) - {w.slots[k][j]}
    ensures w.slots[k][j] in DueSet(w, now)
  {
    FireAtLists(w, now, k, j);
    var id := w.slots[k][j];
    var w' := FireAt(w, now, k, j);
    assert Has(w, k, id);
    forall x ensures x in DueSet(w', now) <==> x in DueSet(w, now) && x != id {
      if x != id {
        assert InWheel(w', x) <==> InWheel(w, x) by {
          assert forall l :: Has(w', l, x) <==> Has(w, l, x);
        }
      }
    }
  }

  // ---------------------------------------------------------------- scans and ticks

  /** A scan that leaves nothing due has fired exactly what was due. */
  lemma FiredAllDue(w0: Wheel, w: Wheel, now: nat, f: seq<Id>, cur: nat, time: nat)
    requires time <= now && Fired(w0, w, now, f, cur, time) && NothingDue(w, now)
    ensures forall id :: id in f <==> Due(w0, id, now)
  {
    forall id | Due(w0, id, now) ensures id in f {
      var k :| Has(w0, k, id);
      assert id !in f ==> Untouched(w0, w, id);
      assert id !in f ==> Has(w, k, id);
    }
  }

  lemma HeadIsMember(f: seq<Id>)
    ensures f == [] || f[0] in f
  {}

  /** A scan with nothing due changes nothing that matters. */
  lemma FiredNothing(w0: Wheel, w: Wheel, now: nat, f: seq<Id>, cur: nat, time: nat)
    requires time <= now && Fired(w0, w, now, f, cur, time) && NothingDue(w0, now)
    ensures f == []
  {
    forall id ensures !Due(w0, id, now) {}
    HeadIsMember(f);
  }

  /** The slot and time the re-armed timers of a tick are placed by: those of its first scan. */
  function BaseCur(w: Wheel, now: nat): nat
    requires w.time <= now && w.cur < SLOTS
  {
    if now - w.time >= SLOT_MS then (w.cur + 1) % SLOTS else w.cur
  }

  function BaseTime(w: Wheel, now: nat): nat
    requires w.time <= now
  {
    if now - w.time >= SLOT_MS then w.time + SLOT_MS else now
  }

  /** Tick(now): the timers f fire, and they are exactly those due, list by list from the slot of the
      first scan on and front to back; afterwards nothing is due, the clock shows now and the current
      slot has moved by the whole slots elapsed. */
  ghost predicate Ticked(w0: Wheel, w: Wheel, now: nat, f: seq<Id>)
    requires w0.time <= now && w0.cur < SLOTS
  {
    && Fired(w0, w, now, f, BaseCur(w0, now), BaseTime(w0, now))
    && (forall id :: id in f <==> Due(w0, id, now))
    && f == ScanOrder(w0, BaseCur(w0, now), now)
    && w.time == now && w.cur == (w0.cur + (now - w0.time) / SLOT_MS) % SLOTS
    && NothingDue(w, now)
  }

  lemma TickKeepsInv(w0: Wheel, w: Wheel, now: nat, f: seq<Id>)
    requires Inv(w0) && w0.time <= now && Ticked(w0, w, now, f)
    ensures Inv(w)
  {
    forall id | id in w.mapped ensures InWheel(w, id) {
      if id in f {
        assert FiredOne(w0, w, now, id, BaseCur(w0, now), BaseTime(w0, now));
        assert Has(w, SlotAt(BaseCur(w0, now), BaseTime(w0, now), w.timers[id].expire), id);
      } else {
        assert Untouched(w0, w, id);
        var k :| Has(w0, k, id);
        assert Has(w, k, id);
      }
    }
  }

  /** The clock is not part of what firing is about. */
  lemma FiredIgnoresClock(w1: Wheel, w0: Wheel, w: Wheel, now: nat, f: seq<Id>, cur: nat, time: nat)
    requires time <= now && Fired(w1, w, now, f, cur, time) && w0.cur < SLOTS
    requires w1 == w0.(cur := w1.cur, time := w1.time)
    ensures Fired(w0, w, now, f, cur, time)
  {
    assert forall k, id :: Has(w0, k, id) == Has(w1, k, id);
    assert forall id :: InWheel(w0, id) == InWheel(w1, id);
    forall id | id in f ensures Due(w0, id, now) && FiredOne(w0, w, now, id, cur, time) {
      assert Due(w1, id, now) && FiredOne(w1, w, now, id, cur, time);
    }
    forall id | id !in f ensures Untouched(w0, w, id) {
      assert Untouched(w1, w, id);
    }
  }

  lemma FiredIgnoresLaterClock(w0: Wheel, w: Wheel, w1: Wheel, now: nat, f: seq<Id>, cur: nat, time: nat)
    requires time <= now && Fired(w0, w, now, f, cur, time) && w1.cur < SLOTS
    requires w1 == w.(cur := w1.cur, time := w1.time)
    ensures Fired(w0, w1, now, f, cur, time)
    ensures NothingDue(w, now) ==> NothingDue(w1, now)
  {
    assert forall k, id :: Has(w, k, id) == Has(w1, k, id);
    assert forall id :: InWheel(w, id) == InWheel(w1, id);
    forall id | id in f ensures FiredOne(w0, w1, now, id, cur, time) {
      assert FiredOne(w0, w, now, id, cur, time);
    }
    forall id | id !in f ensures Untouched(w0, w1, id) {
      assert Untouched(w0, w, id);
    }
  }

  /** A second scan of the same tick finds nothing due and adds nothing. */
  lemma FiredThenNothing(w0: Wheel, w: Wheel, w': Wheel, now: nat, f: seq<Id>, g: seq<Id>,
                         cur: nat, time: nat, cur': nat, time': nat)
    requires time <= now && time' <= now
    requires Fired(w0, w, now, f, cur, time) && NothingDue(w, now) && Fired(w, w', now, g, cur', time')
    ensures Fired(w0, w', now, f, cur, time)
  {
    FiredNothing(w, w', now, g, cur', time');
    forall id ensures Untouched(w, w', id) {}
    forall id | id in f ensures FiredOne(w0, w', now, id, cur, time) {
      assert FiredOne(w0, w, now, id, cur, time);
      assert Untouched(w, w', id);
    }
    forall id | id !in f ensures Untouched(w0, w', id) {
      assert Untouched(w0, w, id) && Untouched(w, w', id);
    }
  }

  // ---------------------------------------------------------------- walking the lists

  /** No entry of list k before position j is due. */
  ghost predicate ClearTo(w: Wheel, k: nat, j: nat, now: nat) {
    && k < |w.slots| && j <= |w.slots[k]|
    && forall i :: 0 <= i < j ==> w.slots[k][i] in w.timers && w.timers[w.slots[k][i]].expire > now
  }

  ghost predicate Clear(w: Wheel, k: nat, now: nat) {
    k < |w.slots| && ClearTo(w, k, |w.slots[k]|, now)
  }

  /** A firing leaves clear lists clear, and the walked list clear up to the same position. */
  lemma FireKeepsClear(w: Wheel, now: nat, k: nat, j: nat)
    requires Shape(w) && w.time <= now && k < SLOTS && ClearTo(w, k, j, now) && j < |w.slots[k]|
    requires w.slots[k][j] in w.timers && w.timers[w.slots[k][j]].expire <= now
    ensures ClearTo(FireAt(w, now, k, j), k, j, now)
    ensures forall l :: Clear(w, l, now) ==> Clear(FireAt(w, now, k, j), l, now)
  {
    var w' := FireAt(w, now, k, j);
    forall l: nat | Clear(w, l, now) ensures Clear(w', l, now) {
      forall i | 0 <= i < |w'.slots[l]| ensures w'.slots[l][i] in w'.timers && w'.timers[w'.slots[l][i]].expire > now {
        if i < |w.slots[l]| {
          assert w'.slots[l][i] == w.slots[l][i];
        }
      }
    }
    forall i | 0 <= i < j ensures w'.slots[k][i] == w.slots[k][i] {}
  }

  // ---------------------------------------------------------------- adding and removing

  function AddTimer(w: Wheel, delay: nat, repeats: bool): Wheel
    requires Inv(w)
  {
    var d := if delay == 0 then 1 else delay;
    var n := SlotAt(w.cur, w.time, w.time + d);
    w.(nextId := w.nextId + 1,
       timers := w.timers[w.nextId := Timer(w.time + d, repeats, if repeats then d else 0)],
       slots := w.slots[n := w.slots[n] + [w.nextId]],
       mapped := w.mapped + {w.nextId})
  }

  function Without(l: seq<Id>, id: Id): seq<Id> {
    if l == [] then [] else if l[0] == id then Without(l[1..], id) else [l[0]] + Without(l[1..], id)
  }

  lemma {:induction false} WithoutFacts(l: seq<Id>, id: Id)
    ensures forall x :: x in Without(l, id) <==> x in l && x != id
    ensures NoDup(l) ==> NoDup(Without(l, id))
    ensures id !in l ==> Without(l, id) == l
  {
    if l != [] {
      WithoutFacts(l[1..], id);
      assert l == [l[0]] + l[1..];
      if NoDup(l) {
        assert l[0] !in l[1..];
        assert NoDup(l[1..]);
      }
    }
  }

  lemma {:induction false} WithoutOthers(l: seq<Id>, id: Id)
    requires id !in l
    ensures Without(l, id) == l
  {
    if l != [] {
      assert l[0] in l && id !in l[1..];
      WithoutOthers(l[1..], id);
      assert l == [l[0]] + l[1..];
    }
  }

  /** What stays in a list keeps its order. */
  lemma {:induction false} WithoutKeepsOrder(a: seq<Id>, id: Id, b: seq<Id>)
    requires id !in a && id !in b
    ensures Without(a + [id] + b, id) == a + b
  {
    var l := a + [id] + b;
    if a == [] {
      assert l[1..] == b && a + b == b;
      WithoutOthers(b, id);
    } else {
      assert a[0] in a && l[0] == a[0];
      assert l[1..] == a[1..] + [id] + b;
      WithoutKeepsOrder(a[1..], id, b);
      assert a + b == [a[0]] + (a[1..] + b);
    }
  }

  function RemoveTimer(w: Wheel, id: Id): Wheel
    requires Inv(w)
  {
    if id !in w.mapped then w
    else
      MappedIsPresent(w, id);
      var n := SlotAt(w.cur, w.time, w.timers[id].expire);
      w.(slots := w.slots[n := Without(w.slots[n], id)], mapped := w.mapped - {id})
  }

  lemma MappedIsPresent(w: Wheel, id: Id)
    requires Inv(w) && id in w.mapped
    ensures id in w.timers && w.time < w.timers[id].expire
  {
    var k :| Has(w, k, id);
  }

  lemma AddKeepsInv(w: Wheel, delay: nat, repeats: bool)
    requires Inv(w)
    ensures Inv(AddTimer(w, delay, repeats))
    ensures var w' := AddTimer(w, delay, repeats);
      forall k, x :: x != w.nextId ==> (Has(w', k, x) <==> Has(w, k, x))
    ensures var w' := AddTimer(w, delay, repeats);
      forall k :: Has(w', k, w.nextId) <==> k == SlotAt(w'.cur, w'.time, w'.timers[w.nextId].expire)
    ensures var w' := AddTimer(w, delay, repeats);
      && w'.mapped == w.mapped + {w.nextId} && w.nextId !in w.timers
      && (forall x :: x in w.timers ==> x in w'.timers && w'.timers[x] == w.timers[x])
      && w'.cur == w.cur && w'.time == w.time && w'.fired == w.fired && w'.nextId > w.nextId
  {
    var w' := AddTimer(w, delay, repeats);
    var id := w.nextId;
    var n := SlotAt(w'.cur, w'.time, w'.timers[id].expire);
    assert id !in w.timers;
    forall k: nat ensures !Has(w, k, id) {}
    forall k: nat, x ensures x != id ==> (Has(w', k, x) <==> Has(w, k, x)) {}
    assert w'.slots[n] == w.slots[n] + [id] && id in w'.slots[n];
    forall k: nat ensures Has(w', k, id) <==> k == n {
      assert !Has(w, k, id);
    }
    forall l | 0 <= l < SLOTS ensures NoDup(w'.slots[l]) {
      assert NoDup(w.slots[l]) && !Has(w, l, id);
    }
    forall x | x in w'.mapped ensures InWheel(w', x) {
      if x == id {
        assert Has(w', n, id);
      } else {
        var k :| Has(w, k, x);
        assert Has(w', k, x);
      }
    }
  }

  /** A new timer goes to the back of one list and leaves the others alone. */
  lemma AddGoesLast(w: Wheel, delay: nat, repeats: bool, k: nat)
    requires Inv(w) && k < SLOTS
    ensures |AddTimer(w, delay, repeats).slots| == SLOTS
    ensures var seconds := (if delay == 0 then 1 else delay) / 1000;
      AddTimer(w, delay, repeats).slots[k] == w.slots[k] + (if k == (w.cur + seconds) % 60 then [w.nextId] else [])
  {
    SlotIsReached(w.cur, w.time, w.time + (if delay == 0 then 1 else delay));
  }

  lemma RemoveKeepsInv(w: Wheel, id: Id)
    requires Inv(w)
    ensures Inv(RemoveTimer(w, id))
    ensures var w' := RemoveTimer(w, id);
      && (forall k, x :: x != id ==> (Has(w', k, x) <==> Has(w, k, x)))
      && (forall k :: Has(w', k, id) ==> Has(w, k, id))
    ensures var w' := RemoveTimer(w, id);
      && w'.mapped == w.mapped - {id} && w'.timers == w.timers && w'.nextId == w.nextId
      && w'.cur == w.cur && w'.time == w.time && w'.fired == w.fired
      && (id !in w.mapped ==> w' == w)
  {
    var w' := RemoveTimer(w, id);
    if id in w.mapped {
      MappedIsPresent(w, id);
      var n := SlotAt(w.cur, w.time, w.timers[id].expire);
      WithoutFacts(w.slots[n], id);
      forall k: nat, x ensures x != id ==> (Has(w', k, x) <==> Has(w, k, x)) {}
      forall k: nat ensures Has(w', k, id) ==> Has(w, k, id) {}
      forall l | 0 <= l < SLOTS ensures NoDup(w'.slots[l]) {
        assert NoDup(w.slots[l]);
      }
      forall x | x in w'.mapped ensures InWheel(w', x) {
        var k :| Has(w, k, x);
        assert Has(w', k, x);
      }
    }
  }
}

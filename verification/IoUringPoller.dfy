/** The poller of src/iouring_poller.cc as code that updates its tables; every method is proved to
    do what the function of the same name in PollerSpec does to the state. */
module IoUringPollerCode {
  import opened Prelude
  import S = PollerSpec

  class IoUringPoller {
    var watchers: map<S.Channel, S.Watcher>
    var idIndex: map<nat, S.Channel>
    var readyEvents: seq<S.Event>
    var nextId: nat

    // The ring: requests submitted and completions not yet seen.
    var flying: multiset<S.Tag>
    var arrived: multiset<S.Tag>

    ghost var masks: map<S.Tag, S.Mask>
    ghost var failed: set<S.Tag>
    ghost var delivered: seq<S.Event>

    ghost function Abs(): S.State
      reads this
    {
      S.State(watchers, idIndex, nextId, flying, arrived, masks, failed, delivered)
    }

    /** The tables match, and the kernel holds only requests with 30 bits of generation. */
    ghost predicate Valid()
      reads this
    {
      S.Matched(Abs()) && S.Loose(Abs())
    }

    constructor ()
      ensures Abs() == S.Empty && Valid() && readyEvents == []
    {
      watchers, idIndex, readyEvents, nextId := map[], map[], [], 1;
      flying, arrived := multiset{}, multiset{};
      masks, failed, delivered := map[], {}, [];
    }

    method AllocId() returns (id: nat)
      modifies `nextId
      ensures (id, nextId) == S.AllocId(old(nextId))
    {
      id := nextId % S.ID_MOD;
      nextId := (nextId + 1) % S.ID_MOD;
      if id == 0 {
        id := nextId;
        nextId := (nextId + 1) % S.ID_MOD;
      }
    }

    method SubmitPollAdd(ch: S.Channel)
      requires ch in watchers && watchers[ch].ch == ch
      modifies `watchers, `flying, `masks
      ensures Abs() == S.SubmitPollAdd(old(Abs()), old(watchers[ch]))
    {
      var w := watchers[ch];
      assert watchers[ch := w] == watchers;
      if w.events == 0 || w.pendingDelete {
        return;
      }
      w := w.(generation := (w.generation + 1) % S.ID_MOD);
      if w.generation == 0 {
        w := w.(generation := 1);
      }
      var tag := S.TagOf(w.id, w.generation, S.Poll);
      watchers := watchers[ch := w.(tag := Some(tag), armed := true)];
      masks := masks[tag := S.EpollToPoll(w.events)];
      flying := flying + multiset{tag};
    }

    method SubmitPollRemove(ch: S.Channel)
      requires ch in watchers
      modifies `flying
      ensures Abs() == S.SubmitPollRemove(old(Abs()), watchers[ch])
    {
      var w := watchers[ch];
      if !w.armed || w.tag == None {
        return;
      }
      flying := flying + multiset{S.TagOf(w.id, w.generation, S.Remove)};
    }

    method MaybeCleanup(ch: S.Channel)
      requires ch in watchers && watchers[ch].ch == ch
      modifies `watchers, `idIndex
      ensures Abs() == S.Cleanup(old(Abs()), old(watchers[ch]))
    {
      var w := watchers[ch];
      assert watchers[ch := w] == watchers;
      if !w.pendingDelete || w.armed {
        return;
      }
      idIndex := idIndex - {w.id};
      watchers := watchers - {w.ch};
    }

    method Add(ch: S.Channel, fd: nat, events: S.Mask)
      requires Valid()
      modifies this
      ensures Abs() == S.Add(old(Abs()), ch, fd, events)
      ensures Valid() <==> !S.Collides(old(Abs()), S.DoAdd(ch, fd, events))
    {
      S.RegisterMatchedIff(Abs(), ch, fd, events);
      S.ModIsLoose(Abs(), ch, fd, events);
      if events == 0 {
        return;
      }
      if ch in watchers {
        ModKnown(ch, events);
        return;
      }
      var id := AllocId();
      ghost var w := S.Watcher(ch, fd, id, 0, events, false, false, None);
      watchers := watchers[ch := S.Watcher(ch, fd, id, 0, events, false, false, None)];
      idIndex := idIndex[id := ch];
      ghost var before := old(Abs()).(nextId := nextId, idIndex := idIndex);
      assert Abs() == before.Put(w);
      SubmitPollAdd(ch);
      PutTwice(before, w);
    }

    method ModKnown(ch: S.Channel, events: S.Mask)
      requires ch in watchers && watchers[ch].ch == ch
      modifies this
      ensures Abs() == S.ModKnown(old(Abs()), ch, events)
    {
      if events == 0 {
        Del(ch);
        return;
      }
      ghost var s := Abs();
      watchers := watchers[ch := watchers[ch].(events := events)];
      ghost var w := watchers[ch];
      SubmitPollRemove(ch);
      assert Abs() == S.SubmitPollRemove(s, w).Put(w);
      SubmitPollAdd(ch);
      PutTwice(S.SubmitPollRemove(s, w), w);
    }

    method Mod(ch: S.Channel, fd: nat, events: S.Mask)
      requires Valid()
      modifies this
      ensures Abs() == S.Mod(old(Abs()), ch, fd, events)
      ensures Valid() <==> !S.Collides(old(Abs()), S.DoMod(ch, fd, events))
    {
      S.RegisterMatchedIff(Abs(), ch, fd, events);
      S.ModIsLoose(Abs(), ch, fd, events);
      if ch !in watchers {
        Add(ch, fd, events);
        return;
      }
      ModKnown(ch, events);
    }

    method Del(ch: S.Channel)
      requires ch in watchers ==> watchers[ch].ch == ch
      modifies this
      ensures Abs() == S.Del(old(Abs()), ch) && S.Gone(Abs(), ch)
      ensures old(Valid()) ==> Valid()
    {
      if ch !in watchers {
        return;
      }
      ghost var s := Abs();
      if Valid() {
        S.DelMatched(s, ch);
        S.DelIsLoose(s, ch);
      }
      watchers := watchers[ch := watchers[ch].(events := 0, pendingDelete := true)];
      ghost var w := watchers[ch];
      SubmitPollRemove(ch);
      assert Abs() == S.SubmitPollRemove(s, w).Put(w);
      if !watchers[ch].armed {
        MaybeCleanup(ch);
        PutTwice(S.SubmitPollRemove(s, w), w);
      }
    }

    method HandlePollCqe(ch: S.Channel, t: S.Tag, res: Option<S.Mask>)
      requires ch in watchers && watchers[ch].ch == ch
      modifies this
      ensures Abs() == S.HandlePollCqe(old(Abs()), old(watchers[ch]), t, res)
      ensures delivered == old(delivered) +
        (if t.generation == old(watchers[ch]).generation && !old(watchers[ch]).pendingDelete && S.Reports(res)
         then [S.Event(ch, S.PollMaskToEpoll(res.value))] else [])
      ensures old(delivered) <= delivered && readyEvents == old(readyEvents) + delivered[|old(delivered)|..]
    {
      if t.generation != watchers[ch].generation {
        return;
      }
      ghost var s := Abs();
      watchers := watchers[ch := watchers[ch].(armed := false)];
      ghost var w1 := watchers[ch];
      if res == None || S.PollMaskToEpoll(res.value) == 0 {
        failed := failed + {t};
        assert Abs() == s.(failed := failed).Put(w1);
        MaybeCleanup(ch);
        PutTwice(s.(failed := failed), w1);
        return;
      }
      var events := S.PollMaskToEpoll(res.value);
      if !watchers[ch].pendingDelete {
        var e := S.Event(ch, events);
        readyEvents := readyEvents + [e];
        delivered := delivered + [e];
        assert Abs() == s.(delivered := delivered).Put(w1);
        SubmitPollAdd(ch);
        PutTwice(s.(delivered := delivered), w1);
      } else {
        assert Abs() == s.Put(w1);
        MaybeCleanup(ch);
        PutTwice(s, w1);
      }
    }

    method HandleRemoveCqe(ch: S.Channel, t: S.Tag)
      requires ch in watchers && watchers[ch].ch == ch
      modifies this
      ensures Abs() == S.HandleRemoveCqe(old(Abs()), old(watchers[ch]), t)
      ensures delivered == old(delivered) && readyEvents == old(readyEvents)
    {
      ghost var s := Abs();
      var w := watchers[ch];
      if t.generation == w.generation {
        w := w.(armed := false);
      }
      watchers := watchers[ch := w];
      assert Abs() == s.Put(w);
      MaybeCleanup(ch);
      PutTwice(s, w);
    }

    method ProcessCqe(t: S.Tag, res: Option<S.Mask>)
      requires Valid()
      modifies this
      ensures Abs() == S.ProcessCqe(old(Abs()), t, res) && Valid()
      ensures old(delivered) <= delivered && readyEvents == old(readyEvents) + delivered[|old(delivered)|..]
    {
      S.ProcessMatched(Abs(), t, res);
      S.ProcessIsLoose(Abs(), t, res);
      if t.id !in idIndex {
        return;
      }
      var ch := idIndex[t.id];
      if t.kind == S.Poll {
        HandlePollCqe(ch, t, res);
      } else {
        HandleRemoveCqe(ch, t);
      }
    }

    /** One completion is taken from the queue, processed and marked seen. */
    method TakeCqe(a: S.Action)
      requires a.Process? && Valid()
      modifies this
      ensures Abs() == S.Apply(old(Abs()), a) && Valid()
      ensures old(delivered) <= delivered && readyEvents == old(readyEvents) + delivered[|old(delivered)|..]
    {
      if arrived[a.tag] > 0 {
        S.KernelIsLoose(Abs(), Abs().(arrived := arrived - multiset{a.tag}));
        arrived := arrived - multiset{a.tag};
        ProcessCqe(a.tag, a.res);
      }
    }

    /** Poll drains the completions the kernel has ready, in its order. What it hands up is what those
        completions deliver, and none of it is for a channel that has been deleted. */
    method Poll(batch: seq<S.Action>)
      requires Valid()
      requires forall k :: 0 <= k < |batch| ==> batch[k].Process?
      modifies this
      ensures Abs() == S.ApplyAll(old(Abs()), batch) && Valid()
      ensures delivered == old(delivered) + readyEvents
      ensures forall e :: e in readyEvents ==> !S.Gone(old(Abs()), e.ch)
    {
      readyEvents := [];
      ghost var start, first := Abs(), delivered;
      var i := 0;
      assert batch[0..] == batch;
      while i < |batch|
        invariant i <= |batch| && Valid()
        invariant S.ApplyAll(Abs(), batch[i..]) == S.ApplyAll(start, batch)
        invariant delivered == first + readyEvents
      {
        UnrollRun(Abs(), batch, i);
        ghost var d, r := delivered, readyEvents;
        TakeCqe(batch[i]);
        ExtendReady(first, d, r, delivered);
        i := i + 1;
      }
      NothingForDeleted(start, batch, readyEvents);
    }
  }

  lemma DeletedStaysSilent(s: S.State, batch: seq<S.Action>, ready: seq<S.Event>, ch: S.Channel)
    requires S.Loose(s) && forall k :: 0 <= k < |batch| ==> batch[k].Process?
    requires S.ApplyAll(s, batch).delivered == s.delivered + ready
    ensures S.Gone(s, ch) ==> forall k :: 0 <= k < |ready| ==> ready[k].ch != ch
  {
    if S.Gone(s, ch) {
      S.NothingAfterDel(s, batch, ch);
      forall k | 0 <= k < |ready| ensures ready[k].ch != ch {
        assert (s.delivered + ready)[|s.delivered| + k] == ready[k];
      }
    }
  }

  lemma NothingForDeleted(s: S.State, batch: seq<S.Action>, ready: seq<S.Event>)
    requires S.Loose(s) && forall k :: 0 <= k < |batch| ==> batch[k].Process?
    requires S.ApplyAll(s, batch).delivered == s.delivered + ready
    ensures forall e :: e in ready ==> !S.Gone(s, e.ch)
  {
    forall e | e in ready ensures !S.Gone(s, e.ch) {
      DeletedStaysSilent(s, batch, ready, e.ch);
    }
  }

  lemma ExtendReady(first: seq<S.Event>, d: seq<S.Event>, r: seq<S.Event>, d': seq<S.Event>)
    requires d == first + r && d <= d'
    ensures d' == first + (r + d'[|d|..])
  {}

  lemma UnrollRun(s: S.State, batch: seq<S.Action>, i: nat)
    requires i < |batch|
    ensures S.ApplyAll(s, batch[i..]) == S.ApplyAll(S.Apply(s, batch[i]), batch[i + 1..])
  {
    assert batch[i..][0] == batch[i] && batch[i..][1..] == batch[i + 1..];
  }

  /** Writing the same watcher twice is writing it once. */
  lemma PutTwice(s: S.State, w: S.Watcher)
    ensures S.SubmitPollAdd(s.Put(w), w) == S.SubmitPollAdd(s, w)
    ensures S.Cleanup(s.Put(w), w) == S.Cleanup(s, w)
  {
    assert s.Put(w).Put(w) == s.Put(w);
    var g := S.NextGeneration(w.generation);
    var w' := w.(generation := g, tag := Some(S.TagOf(w.id, g, S.Poll)), armed := true);
    assert s.Put(w).Put(w') == s.Put(w');
    assert s.Put(w).watchers - {w.ch} == s.watchers - {w.ch};
  }
}

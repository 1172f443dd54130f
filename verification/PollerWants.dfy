/** Which events the poller of src/iouring_poller.cc polls for: those asked for last, whatever
    completions come in between. */
module PollerWants {
  import opened Prelude
  import opened PollerSpec

  /** The events a channel is registered for; None when it is not, or is being deleted. */
  function Wanted(s: State, ch: Channel): Option<Mask> {
    if ch in s.watchers && !s.watchers[ch].pendingDelete then Some(s.watchers[ch].events) else None
  }

  /** What an action makes of it. A channel whose deletion still waits for its completion cannot be
      registered. */
  function WantedAfter(s: State, a: Action, ch: Channel): Option<Mask> {
    match a
    case DoAdd(c, _, events) =>
      if c != ch || events == 0 then Wanted(s, ch) else Registered(s, ch, events)
    case DoMod(c, _, events) =>
      if c != ch then Wanted(s, ch) else if events == 0 then None else Registered(s, ch, events)
    case DoDel(c) => if c == ch then None else Wanted(s, ch)
    case _ => Wanted(s, ch)
  }

  function Registered(s: State, ch: Channel, events: Mask): Option<Mask> {
    if ch in s.watchers && s.watchers[ch].pendingDelete then None else Some(events)
  }

  lemma RegisterWants(s: State, c: Channel, fd: nat, events: Mask, ch: Channel)
    requires Inv(s) && events != 0
    ensures Wanted(Add(s, c, fd, events), ch) == if c == ch then Registered(s, ch, events) else Wanted(s, ch)
  {}

  lemma DeleteWants(s: State, c: Channel, ch: Channel)
    requires Inv(s)
    ensures Wanted(Del(s, c), ch) == if c == ch then None else Wanted(s, ch)
  {
    if c in s.watchers {
      assert WatcherInv(s, s.watchers[c]);
    }
  }

  lemma PollCqeWants(s: State, w: Watcher, t: Tag, res: Option<Mask>, ch: Channel)
    requires w.ch in s.watchers && s.watchers[w.ch] == w
    ensures Wanted(HandlePollCqe(s, w, t, res), ch) == Wanted(s, ch)
  {}

  lemma RemoveCqeWants(s: State, w: Watcher, t: Tag, ch: Channel)
    requires w.ch in s.watchers && s.watchers[w.ch] == w
    ensures Wanted(HandleRemoveCqe(s, w, t), ch) == Wanted(s, ch)
  {}

  lemma ProcessWants(s: State, t: Tag, res: Option<Mask>, ch: Channel)
    requires Inverse(s)
    ensures Wanted(ProcessCqe(s, t, res), ch) == Wanted(s, ch)
  {
    if t.id in s.idIndex {
      var w := s.watchers[s.idIndex[t.id]];
      if t.kind == Poll {
        PollCqeWants(s, w, t, res, ch);
      } else {
        RemoveCqeWants(s, w, t, ch);
      }
    }
  }

  lemma ChangeWants(s: State, a: Action, ch: Channel)
    requires Inv(s) && (a.DoAdd? || a.DoMod?)
    ensures Wanted(Apply(s, a), ch) == WantedAfter(s, a, ch)
  {
    if a.events != 0 {
      RegisterWants(s, a.ch, a.fd, a.events, ch);
    } else if a.DoMod? {
      DeleteWants(s, a.ch, ch);
    }
  }

  /** Every action changes what a channel is registered for in this way and no other; completions never
      do. */
  lemma WantedStep(s: State, a: Action, ch: Channel)
    requires Inv(s)
    ensures Wanted(Apply(s, a), ch) == WantedAfter(s, a, ch)
  {
    match a
    case DoAdd(_, _, _) => ChangeWants(s, a, ch);
    case DoMod(_, _, _) => ChangeWants(s, a, ch);
    case DoDel(c) => DeleteWants(s, c, ch);
    case Complete(_) =>
    case Process(t, res) => ProcessWants(s.(arrived := s.arrived - multiset{t}), t, res, ch);
  }

  /** The events a run asks for last. */
  function AskedLast(acts: seq<Action>, ch: Channel, before: Option<Mask>): Option<Mask>
    decreases acts
  {
    if acts == [] then before
    else AskedLast(acts[1..], ch,
      match acts[0]
      case DoAdd(c, _, events) => if c == ch && events != 0 then Some(events) else before
      case DoMod(c, _, events) => if c == ch && events != 0 then Some(events) else before
      case _ => before)
  }

  /** No action of the run deletes the channel. */
  ghost predicate Stays(acts: seq<Action>, ch: Channel) {
    forall a :: a in acts ==> a != DoDel(ch) && !(a.DoMod? && a.ch == ch && a.events == 0)
  }

  ghost predicate NotDeleted(s: State, ch: Channel) {
    ch in s.watchers ==> !s.watchers[ch].pendingDelete
  }

  lemma RegisterKeepsUndeleted(s: State, c: Channel, fd: nat, events: Mask, ch: Channel)
    requires Inverse(s) && NotDeleted(s, ch) && events != 0
    ensures NotDeleted(Add(s, c, fd, events), ch)
  {}

  lemma OtherDeletion(s: State, c: Channel, ch: Channel)
    requires Inverse(s) && NotDeleted(s, ch) && c != ch
    ensures NotDeleted(Del(s, c), ch)
  {}

  lemma UndeletedStep(s: State, a: Action, ch: Channel)
    requires Inv(s) && NotDeleted(s, ch) && a != DoDel(ch) && !(a.DoMod? && a.ch == ch && a.events == 0)
    ensures NotDeleted(Apply(s, a), ch)
  {
    match a
    case DoAdd(c, fd, events) =>
      if events != 0 {
        RegisterKeepsUndeleted(s, c, fd, events, ch);
      }
    case DoMod(c, fd, events) =>
      if events != 0 {
        RegisterKeepsUndeleted(s, c, fd, events, ch);
      } else {
        OtherDeletion(s, c, ch);
      }
    case DoDel(c) => OtherDeletion(s, c, ch);
    case Complete(_) =>
    case Process(t, res) => ProcessKeepsUndeleted(s.(arrived := s.arrived - multiset{t}), t, res, ch);
  }

  lemma AskedStep(s: State, a: Action, ch: Channel)
    requires Inv(s) && NotDeleted(s, ch) && a != DoDel(ch) && !(a.DoMod? && a.ch == ch && a.events == 0)
    ensures Wanted(Apply(s, a), ch) == AskedLast([a], ch, Wanted(s, ch))
  {
    WantedStep(s, a, ch);
    assert [a][1..] == [];
  }

  lemma ProcessKeepsUndeleted(s: State, t: Tag, res: Option<Mask>, ch: Channel)
    requires Inverse(s) && NotDeleted(s, ch)
    ensures NotDeleted(ProcessCqe(s, t, res), ch)
  {}

  lemma AskedLastStep(acts: seq<Action>, ch: Channel, before: Option<Mask>)
    requires acts != []
    ensures AskedLast(acts, ch, before) == AskedLast(acts[1..], ch, AskedLast([acts[0]], ch, before))
  {
    assert [acts[0]][1..] == [];
  }

  lemma {:induction false} WantedIsAskedLast(s: State, acts: seq<Action>, ch: Channel)
    requires Inv(s) && SmallRun(s, acts) && NotDeleted(s, ch) && Stays(acts, ch)
    ensures Wanted(ApplyAll(s, acts), ch) == AskedLast(acts, ch, Wanted(s, ch))
    decreases acts
  {
    if acts != [] {
      assert acts[0] in acts && forall a :: a in acts[1..] ==> a in acts;
      StepKeepsInv(s, acts[0]);
      UndeletedStep(s, acts[0], ch);
      AskedStep(s, acts[0], ch);
      AskedLastStep(acts, ch, Wanted(s, ch));
      WantedIsAskedLast(Apply(s, acts[0]), acts[1..], ch);
    }
  }

  /** From the registrations to the kernel, over any run that does not delete the channel: the one poll
      outstanding for it asks for exactly the events of its last registration, unless its current poll
      has failed. */
  lemma KernelPollsForAskedLast(acts: seq<Action>, ch: Channel)
    requires SmallRun(Empty, acts) && Stays(acts, ch) && AskedLast(acts, ch, None).Some?
    ensures var s := ApplyAll(Empty, acts);
      && ch in s.watchers
      && var w := s.watchers[ch];
      && w.events == AskedLast(acts, ch, None).value && w.tag.Some?
      && (w.tag.value in s.failed
          || (&& s.Outstanding(w.tag.value) == 1 && w.tag.value in s.masks
              && s.masks[w.tag.value] == EpollToPoll(w.events)))
  {
    WantedIsAskedLast(Empty, acts, ch);
    WatchersAfterRun(acts, ch);
  }
}

/** What src/iouring_poller.cc does to its tables, as functions on one state value, and the run
    properties of that state against a kernel that completes requests in any order, with any result. */
module PollerSpec {
  import opened Prelude

  type Channel = nat
  type Mask = bv32

  const GEN_MOD: nat := 0x4000_0000   // 30 bits of generation travel in the user data
  const ID_MOD: nat := 0x1_0000_0000

  const POLLIN: Mask := 0x1
  const POLLPRI: Mask := 0x2
  const POLLOUT: Mask := 0x4
  const POLLERR: Mask := 0x8
  const POLLHUP: Mask := 0x10
  const POLLRDHUP: Mask := 0x2000
  const EPOLLIN: Mask := 0x1
  const EPOLLPRI: Mask := 0x2
  const EPOLLOUT: Mask := 0x4
  const EPOLLERR: Mask := 0x8
  const EPOLLHUP: Mask := 0x10
  const EPOLLRDHUP: Mask := 0x2000

  // ---------------------------------------------------------------- user data

  datatype Kind = Poll | Remove

  /** The three fields packed into a request's 64-bit user data. */
  datatype Tag = Tag(id: nat, generation: nat, kind: Kind)

  function KindBits(k: Kind): nat {
    if k == Poll then 0 else 1
  }

  function Encode(id: nat, generation: nat, kind: Kind): nat {
    id * ID_MOD + (generation % GEN_MOD) * 4 + KindBits(kind)
  }

  function Decode(data: nat): Tag {
    Tag(data / ID_MOD, (data / 4) % GEN_MOD, if data % 4 == 0 then Poll else Remove)
  }

  /** The tag a request submitted for (id, generation, kind) carries. */
  function TagOf(id: nat, generation: nat, kind: Kind): Tag {
    Tag(id, generation % GEN_MOD, kind)
  }

  /** The packed word carries exactly the tag, so the state below stores tags. */
  lemma DecodeEncode(id: nat, generation: nat, kind: Kind)
    ensures Decode(Encode(id, generation, kind)) == TagOf(id, generation, kind)
  {
    var g, k := generation % GEN_MOD, KindBits(kind);
    DivModUnique(Encode(id, generation, kind), ID_MOD, id, g * 4 + k);
    DivModUnique(Encode(id, generation, kind), 4, id * GEN_MOD + g, k);
    DivModUnique(id * GEN_MOD + g, GEN_MOD, id, g);
  }

  /** It brings the request back to the watcher's own generation exactly below 2^30. */
  lemma GenerationSurvivesIff(id: nat, generation: nat, kind: Kind)
    ensures Decode(Encode(id, generation, kind)).generation == generation <==> generation < GEN_MOD
  {
    DecodeEncode(id, generation, kind);
  }

  // ---------------------------------------------------------------- event masks

  function EpollToPoll(ev: Mask): Mask {
    (POLLERR | POLLHUP | POLLRDHUP)
    | (if ev & EPOLLIN != 0 then POLLIN else 0)
    | (if ev & EPOLLPRI != 0 then POLLPRI else 0)
    | (if ev & EPOLLOUT != 0 then POLLOUT else 0)
  }

  function PollMaskToEpoll(mask: Mask): Mask {
    (if mask & (POLLIN | POLLPRI) != 0 then EPOLLIN else 0)
    | (if mask & POLLOUT != 0 then EPOLLOUT else 0)
    | (if mask & POLLERR != 0 then EPOLLERR else 0)
    | (if mask & POLLHUP != 0 then EPOLLHUP else 0)
    | (if mask & POLLRDHUP != 0 then EPOLLRDHUP else 0)
  }

  /** What is wanted is asked for, bit by bit, and errors and hang-ups always are. */
  lemma AskedBits(ev: Mask)
    ensures EpollToPoll(ev) & POLLIN != 0 <==> ev & EPOLLIN != 0
    ensures EpollToPoll(ev) & POLLPRI != 0 <==> ev & EPOLLPRI != 0
    ensures EpollToPoll(ev) & POLLOUT != 0 <==> ev & EPOLLOUT != 0
    ensures EpollToPoll(ev) & 0x2018 == 0x2018 && EpollToPoll(ev) & !0x201F == 0
  {}

  /** What is reported is delivered, bit by bit; priority data counts as readable. */
  lemma ReportedBits(mask: Mask)
    ensures PollMaskToEpoll(mask) & EPOLLIN != 0 <==> mask & 0x3 != 0
    ensures PollMaskToEpoll(mask) & EPOLLOUT != 0 <==> mask & 0x4 != 0
    ensures PollMaskToEpoll(mask) & EPOLLERR != 0 <==> mask & 0x8 != 0
    ensures PollMaskToEpoll(mask) & EPOLLHUP != 0 <==> mask & 0x10 != 0
    ensures PollMaskToEpoll(mask) & EPOLLRDHUP != 0 <==> mask & 0x2000 != 0
    ensures PollMaskToEpoll(mask) & !0x201D == 0
    ensures PollMaskToEpoll(mask) == 0 <==> mask & 0x201F == 0
  {}

  /** A poll that reports only what it was asked for yields read events only if reading or priority
      data was wanted, write events only if writing was, and otherwise only error and hang-up. */
  lemma DeliveredBitsWereWanted(wanted: Mask, reported: Mask)
    requires reported & !EpollToPoll(wanted) == 0
    ensures var ev := PollMaskToEpoll(reported);
      && (ev & EPOLLIN != 0 ==> wanted & (EPOLLIN | EPOLLPRI) != 0)
      && (ev & EPOLLOUT != 0 ==> wanted & EPOLLOUT != 0)
      && ev & !(EPOLLIN | EPOLLOUT | EPOLLERR | EPOLLHUP | EPOLLRDHUP) == 0
  {}

  // ---------------------------------------------------------------- state

  datatype Watcher = Watcher(
    ch: Channel,
    fd: nat,
    id: nat,
    generation: nat,
    events: Mask,
    pendingDelete: bool,
    armed: bool,
    tag: Option<Tag>  // poll_user_data; None is the zero it starts with
  )

  datatype Event = Event(ch: Channel, events: Mask)

  /** The poller's tables, and what the kernel holds: requests submitted but not completed, and
      completions not yet processed, both by tag. A completion's result is chosen when it is
      processed. masks remembers what each poll asked for, failed the polls that ended in an error
      or an empty mask, delivered every event ever handed up. */
  datatype State = State(
    watchers: map<Channel, Watcher>,
    idIndex: map<nat, Channel>,
    nextId: nat,
    flying: multiset<Tag>,
    arrived: multiset<Tag>,
    masks: map<Tag, Mask>,
    failed: set<Tag>,
    delivered: seq<Event>
  ) {
    function Outstanding(t: Tag): nat {
      flying[t] + arrived[t]
    }

    function Put(w: Watcher): State {
      this.(watchers := watchers[w.ch := w])
    }
  }

  const Empty: State := State(map[], map[], 1, multiset{}, multiset{}, map[], {}, [])

  // ---------------------------------------------------------------- operations

  /** next_id_++, skipping zero. */
  function AllocId(next: nat): (nat, nat) {
    if next % ID_MOD == 0 then (1, 2) else (next % ID_MOD, (next + 1) % ID_MOD)
  }

  /** Ids run through 1 to 2^32 - 1 and start again at 1. */
  lemma AllocatedIds(next: nat)
    requires next < 0x1_0000_0000
    ensures AllocId(next).0 == (if next == 0 then 1 else next)
    ensures AllocId(next).1 == (if next == 0xFFFF_FFFF then 0 else AllocId(next).0 + 1)
  {}

  function NextGeneration(g: nat): nat {
    if (g + 1) % ID_MOD == 0 then 1 else (g + 1) % ID_MOD
  }

  function SubmitPollAdd(s: State, w: Watcher): State {
    if w.events == 0 || w.pendingDelete then s.Put(w)
    else
      var g := NextGeneration(w.generation);
      var tag := TagOf(w.id, g, Poll);
      s.Put(w.(generation := g, tag := Some(tag), armed := true))
       .(flying := s.flying + multiset{tag}, masks := s.masks[tag := EpollToPoll(w.events)])
  }

  function SubmitPollRemove(s: State, w: Watcher): State {
    if !w.armed || w.tag == None then s
    else s.(flying := s.flying + multiset{TagOf(w.id, w.generation, Remove)})
  }

  function Cleanup(s: State, w: Watcher): State {
    if !w.pendingDelete || w.armed then s.Put(w)
    else s.(idIndex := s.idIndex - {w.id}, watchers := s.watchers - {w.ch})
  }

  function Add(s: State, ch: Channel, fd: nat, events: Mask): State {
    if events == 0 then s
    else if ch in s.watchers then ModKnown(s, ch, events)
    else
      var (id, next) := AllocId(s.nextId);
      SubmitPollAdd(s.(nextId := next, idIndex := s.idIndex[id := ch]),
                    Watcher(ch, fd, id, 0, events, false, false, None))
  }

  function ModKnown(s: State, ch: Channel, events: Mask): State
    requires ch in s.watchers
  {
    if events == 0 then Del(s, ch)
    else
      var w := s.watchers[ch].(events := events);
      SubmitPollAdd(SubmitPollRemove(s, w), w)
  }

  function Mod(s: State, ch: Channel, fd: nat, events: Mask): State {
    if ch in s.watchers then ModKnown(s, ch, events) else Add(s, ch, fd, events)
  }

  function Del(s: State, ch: Channel): State {
    if ch !in s.watchers then s
    else
      var w := s.watchers[ch].(events := 0, pendingDelete := true);
      var s1 := SubmitPollRemove(s, w);
      if !w.armed then Cleanup(s1, w) else s1.Put(w)
  }

  function HandlePollCqe(s: State, w: Watcher, t: Tag, res: Option<Mask>): State {
    if t.generation != w.generation then s
    else
      var w1 := w.(armed := false);
      if res == None || PollMaskToEpoll(res.value) == 0 then
        Cleanup(s.(failed := s.failed + {t}), w1)
      else if w.pendingDelete then Cleanup(s, w1)
      else
        SubmitPollAdd(s.(delivered := s.delivered + [Event(w.ch, PollMaskToEpoll(res.value))]), w1)
  }

  function HandleRemoveCqe(s: State, w: Watcher, t: Tag): State {
    Cleanup(s, if t.generation == w.generation then w.(armed := false) else w)
  }

  /** ProcessCqe: res is None for a negative result. */
  function ProcessCqe(s: State, t: Tag, res: Option<Mask>): State {
    if t.id !in s.idIndex || s.idIndex[t.id] !in s.watchers then s
    else
      var w := s.watchers[s.idIndex[t.id]];
      if t.kind == Poll then HandlePollCqe(s, w, t, res) else HandleRemoveCqe(s, w, t)
  }

  // ---------------------------------------------------------------- runs

  datatype Action =
    | DoAdd(ch: Channel, fd: nat, events: Mask)
    | DoMod(ch: Channel, fd: nat, events: Mask)
    | DoDel(ch: Channel)
    | Complete(tag: Tag)                       // the kernel completes or cancels a request
    | Process(tag: Tag, res: Option<Mask>)     // Poll takes a completion from the queue

  function Apply(s: State, a: Action): State {
    match a
    case DoAdd(ch, fd, events) => Add(s, ch, fd, events)
    case DoMod(ch, fd, events) => Mod(s, ch, fd, events)
    case DoDel(ch) => Del(s, ch)
    case Complete(t) =>
      if s.flying[t] == 0 then s
      else s.(flying := s.flying - multiset{t}, arrived := s.arrived + multiset{t})
    case Process(t, res) =>
      if s.arrived[t] == 0 then s
      else ProcessCqe(s.(arrived := s.arrived - multiset{t}), t, res)
  }

  function ApplyAll(s: State, acts: seq<Action>): State
    decreases acts
  {
    if acts == [] then s else ApplyAll(Apply(s, acts[0]), acts[1..])
  }

  /** No counter has reached the width it is cut to. */
  ghost predicate Small(s: State) {
    && s.nextId < ID_MOD - 1
    && forall ch :: ch in s.watchers ==> s.watchers[ch].generation < GEN_MOD
  }

  ghost predicate SmallRun(s: State, acts: seq<Action>)
    decreases acts
  {
    Small(s) && (acts != [] ==> SmallRun(Apply(s, acts[0]), acts[1..]))
  }

  // ---------------------------------------------------------------- invariant

  /** watchers_ and id_index_ are inverse to each other. */
  ghost predicate Inverse(s: State) {
    && (forall ch :: ch in s.watchers ==>
          && s.watchers[ch].ch == ch && 1 <= s.watchers[ch].id < s.nextId
          && s.watchers[ch].id in s.idIndex && s.idIndex[s.watchers[ch].id] == ch)
    && (forall id :: id in s.idIndex ==> s.idIndex[id] in s.watchers && s.watchers[s.idIndex[id]].id == id)
  }

  /** A watcher is armed exactly while one poll of its current generation is outstanding. One that is
      not being deleted is armed with the mask it wants now, or its last poll failed. */
  ghost predicate WatcherInv(s: State, w: Watcher) {
    && 1 <= w.generation < GEN_MOD
    && w.tag == Some(Tag(w.id, w.generation, Poll))
    && s.Outstanding(w.tag.value) == (if w.armed then 1 else 0)
    && (w.pendingDelete ==> w.armed)
    && (!w.pendingDelete ==>
          && w.events != 0
          && w.tag.value in s.masks
          && (w.armed ==> s.masks[w.tag.value] == EpollToPoll(w.events))
          && (!w.armed ==> w.tag.value in s.failed))
  }

  /** Outstanding requests belong to ids handed out before, and none is ahead of its watcher; a
      cancellation of the current generation means the watcher is being deleted. */
  ghost predicate TagInv(s: State, t: Tag) {
    && t.id < s.nextId
    && (t.id in s.idIndex && s.idIndex[t.id] in s.watchers ==>
          var w := s.watchers[s.idIndex[t.id]];
          && t.generation <= w.generation
          && (t.kind == Remove && t.generation == w.generation ==> w.pendingDelete))
  }

  ghost predicate Inv(s: State) {
    && s.nextId >= 1
    && Inverse(s)
    && (forall ch :: ch in s.watchers ==> WatcherInv(s, s.watchers[ch]))
    && (forall t :: s.Outstanding(t) > 0 ==> TagInv(s, t))
  }

  // ---------------------------------------------------------------- every action keeps it

  /** Inv, with w in place of what the table holds for its channel and nothing said about w's own
      state; no request for w is ahead of it. */
  ghost predicate InvBut(s: State, w: Watcher) {
    && s.nextId >= 1
    && Inverse(s.Put(w))
    && (forall ch :: ch in s.watchers && ch != w.ch ==> WatcherInv(s, s.watchers[ch]))
    && (forall t :: s.Outstanding(t) > 0 ==>
          if t.id == w.id then t.id < s.nextId && t.generation <= w.generation
          else TagInv(s.Put(w), t))
  }

  lemma PutKeepsInv(s: State, w: Watcher)
    requires InvBut(s, w) && WatcherInv(s, w)
    requires !w.pendingDelete ==> s.Outstanding(Tag(w.id, w.generation, Remove)) == 0
    ensures Inv(s.Put(w))
  {
    var s' := s.Put(w);
    forall ch | ch in s'.watchers ensures WatcherInv(s', s'.watchers[ch]) {
      assert WatcherInv(s, s'.watchers[ch]);
    }
    forall t | s'.Outstanding(t) > 0 ensures TagInv(s', t) {
      assert s.Outstanding(t) > 0;
      if t.id == w.id {
        assert s'.watchers[w.ch] == w && s'.idIndex[w.id] == w.ch;
        assert t == Tag(w.id, w.generation, Remove) || t.kind == Poll || t.generation < w.generation;
      }
    }
  }

  lemma EraseKeepsInv(s: State, w: Watcher)
    requires InvBut(s, w)
    ensures Inv(s.(idIndex := s.idIndex - {w.id}, watchers := s.watchers - {w.ch}))
  {
    var p := s.Put(w);
    var s' := s.(idIndex := s.idIndex - {w.id}, watchers := s.watchers - {w.ch});
    assert w.ch in p.watchers && p.watchers[w.ch] == w;
    forall ch | ch in s'.watchers
      ensures ch in p.watchers && s'.watchers[ch] == p.watchers[ch] && WatcherInv(s', s'.watchers[ch])
    {
      assert WatcherInv(s, s.watchers[ch]);
    }
    forall t | s'.Outstanding(t) > 0 ensures TagInv(s', t) {
      assert s.Outstanding(t) > 0;
    }
  }

  lemma OtherTagStays(p: State, p': State, t: Tag, ch: Channel)
    requires TagInv(p, t) && Inverse(p) && p.nextId == p'.nextId && p'.idIndex == p.idIndex
    requires ch in p.watchers && ch in p'.watchers && p.watchers[ch].id != t.id
    requires p'.watchers == p.watchers[ch := p'.watchers[ch]]
    ensures TagInv(p', t)
  {}

  /** The watcher and the tables after a new poll has been submitted for w. */
  ghost predicate Rearmed(s: State, w: Watcher, m: State, w': Watcher) {
    var tag := Tag(w.id, w.generation + 1, Poll);
    && w' == w.(generation := w.generation + 1, tag := Some(tag), armed := true)
    && m == s.(flying := s.flying + multiset{tag}, masks := s.masks[tag := EpollToPoll(w.events)])
  }

  lemma RearmedTables(s: State, w: Watcher, m: State, w': Watcher)
    requires InvBut(s, w) && Rearmed(s, w, m, w')
    ensures Inverse(m.Put(w')) && w.id < s.nextId
    ensures forall ch :: ch in m.watchers && ch != w.ch ==> WatcherInv(m, m.watchers[ch])
  {
    var p, p' := s.Put(w), m.Put(w');
    assert w.ch in p.watchers && p.watchers[w.ch] == w;
    assert p'.watchers.Keys == p.watchers.Keys && p'.idIndex == p.idIndex;
    assert forall ch :: ch in p'.watchers ==>
      p'.watchers[ch].id == p.watchers[ch].id && p'.watchers[ch].ch == p.watchers[ch].ch;
    forall ch | ch in m.watchers && ch != w.ch ensures WatcherInv(m, m.watchers[ch]) {
      assert WatcherInv(s, s.watchers[ch]);
      assert p.watchers[ch] == s.watchers[ch];
      assert s.watchers[ch].id != w.id;
    }
  }

  lemma RearmedTags(s: State, w: Watcher, m: State, w': Watcher, t: Tag)
    requires InvBut(s, w) && Rearmed(s, w, m, w') && m.Outstanding(t) > 0 && w.id < s.nextId
    ensures if t.id == w'.id then t.id < m.nextId && t.generation <= w'.generation else TagInv(m.Put(w'), t)
  {
    if t != w'.tag.value {
      assert s.Outstanding(t) > 0;
      if t.id != w.id {
        var p := s.Put(w);
        assert p.watchers[w.ch] == w;
        OtherTagStays(p, m.Put(w'), t, w.ch);
      }
    }
  }

  lemma RearmedInvBut(s: State, w: Watcher, m: State, w': Watcher)
    requires InvBut(s, w) && Rearmed(s, w, m, w')
    ensures InvBut(m, w')
  {
    RearmedTables(s, w, m, w');
    forall t | m.Outstanding(t) > 0
      ensures if t.id == w'.id then t.id < m.nextId && t.generation <= w'.generation else TagInv(m.Put(w'), t)
    {
      RearmedTags(s, w, m, w', t);
    }
  }

  /** No request of the generation about to be used is outstanding. */
  lemma NextIsUnused(s: State, w: Watcher, kind: Kind)
    requires InvBut(s, w)
    ensures s.Outstanding(Tag(w.id, w.generation + 1, kind)) == 0
  {
    assert forall t :: s.Outstanding(t) > 0 && t.id == w.id ==> t.generation <= w.generation;
    var t := Tag(w.id, w.generation + 1, kind);
  }

  lemma SubmitPollAddKeepsInv(s: State, w: Watcher)
    requires InvBut(s, w) && w.events != 0 && !w.pendingDelete && w.generation + 1 < GEN_MOD
    ensures Inv(SubmitPollAdd(s, w))
  {
    var tag := Tag(w.id, w.generation + 1, Poll);
    var w' := w.(generation := w.generation + 1, tag := Some(tag), armed := true);
    var m := s.(flying := s.flying + multiset{tag}, masks := s.masks[tag := EpollToPoll(w.events)]);
    assert SubmitPollAdd(s, w) == m.Put(w');
    NextIsUnused(s, w, Poll);
    NextIsUnused(s, w, Remove);
    RearmedInvBut(s, w, m, w');
    PutKeepsInv(m, w');
  }

  /** What Inv says of one watcher, seen as InvBut of any state that differs in that watcher only. */
  lemma InvGivesInvBut(s: State, w: Watcher)
    requires Inv(s) && w.ch in s.watchers
    requires w.id == s.watchers[w.ch].id && w.generation == s.watchers[w.ch].generation
    ensures InvBut(s, w)
  {
    var p := s.Put(w);
    assert p.watchers.Keys == s.watchers.Keys;
    assert forall ch :: ch in p.watchers ==>
      p.watchers[ch].id == s.watchers[ch].id && p.watchers[ch].ch == s.watchers[ch].ch;
    forall t | s.Outstanding(t) > 0
      ensures if t.id == w.id then t.id < s.nextId && t.generation <= w.generation else TagInv(p, t)
    {
      assert TagInv(s, t);
      if t.id == w.id {
        assert s.idIndex[w.id] == w.ch;
      } else {
        OtherTagStays(s, p, t, w.ch);
      }
    }
  }

  /** One more request for w's own id, not ahead of w, leaves InvBut as it was. */
  lemma OwnRequestKeepsInvBut(s: State, s': State, w: Watcher, t: Tag)
    requires InvBut(s, w) && t.id == w.id && t.generation <= w.generation
    requires s' == s.(flying := s.flying + multiset{t})
    ensures InvBut(s', w)
  {
    var p, p' := s.Put(w), s'.Put(w);
    assert w.ch in p.watchers && p.watchers[w.ch] == w;
    forall ch | ch in s'.watchers && ch != w.ch ensures WatcherInv(s', s'.watchers[ch]) {
      assert WatcherInv(s, s.watchers[ch]);
      assert p.watchers[ch] == s.watchers[ch];
      assert s.watchers[ch].id != w.id;
    }
    forall u | s'.Outstanding(u) > 0
      ensures if u.id == w.id then u.id < s'.nextId && u.generation <= w.generation else TagInv(p', u)
    {
      if u != t {
        assert s.Outstanding(u) > 0;
        assert u.id != w.id ==> TagInv(p, u);
      }
    }
  }

  /** The cancellation a watcher's Mod or Del submits first. */
  lemma CancelInvBut(s: State, w: Watcher)
    requires Inv(s) && w.ch in s.watchers
    requires w == s.watchers[w.ch].(events := w.events, pendingDelete := w.pendingDelete)
    ensures InvBut(SubmitPollRemove(s, w), w)
    ensures SubmitPollRemove(s, w).Outstanding(Tag(w.id, w.generation, Poll)) == (if w.armed then 1 else 0)
  {
    assert WatcherInv(s, s.watchers[w.ch]);
    InvGivesInvBut(s, w);
    if w.armed {
      OwnRequestKeepsInvBut(s, SubmitPollRemove(s, w), w, Tag(w.id, w.generation, Remove));
    }
  }

  lemma ModKeepsInv(s: State, ch: Channel, events: Mask)
    requires Inv(s) && Small(s) && ch in s.watchers && events != 0
    requires Small(ModKnown(s, ch, events))
    ensures Inv(ModKnown(s, ch, events))
  {
    var w := s.watchers[ch].(events := events);
    assert WatcherInv(s, s.watchers[ch]);
    CancelInvBut(s, w);
    var s1 := SubmitPollRemove(s, w);
    if w.pendingDelete {
      PutKeepsInv(s1, w);
    } else {
      assert ModKnown(s, ch, events).watchers[ch].generation == NextGeneration(w.generation);
      SubmitPollAddKeepsInv(s1, w);
    }
  }

  lemma DelKeepsInv(s: State, ch: Channel)
    requires Inv(s) && Small(s)
    ensures Inv(Del(s, ch))
  {
    if ch in s.watchers {
      var w := s.watchers[ch].(events := 0, pendingDelete := true);
      assert WatcherInv(s, s.watchers[ch]);
      CancelInvBut(s, w);
      if w.armed {
        PutKeepsInv(SubmitPollRemove(s, w), w);
      } else {
        EraseKeepsInv(SubmitPollRemove(s, w), w);
      }
    }
  }

  lemma FreshInverse(s: State, m: State, w: Watcher)
    requires Inverse(s) && s.nextId >= 1 && w.ch !in s.watchers && w.id == s.nextId
    requires m == s.(nextId := s.nextId + 1, idIndex := s.idIndex[w.id := w.ch])
    ensures Inverse(m.Put(w))
  {
    var p := m.Put(w);
    assert forall c :: c in s.watchers ==> p.watchers[c] == s.watchers[c];
    assert p.watchers[w.ch] == w;
  }

  lemma FreshInvBut(s: State, m: State, w: Watcher)
    requires Inv(s) && w.ch !in s.watchers && w.id == s.nextId
    requires m == s.(nextId := s.nextId + 1, idIndex := s.idIndex[w.id := w.ch])
    ensures InvBut(m, w)
  {
    FreshInverse(s, m, w);
    forall c | c in m.watchers && c != w.ch ensures WatcherInv(m, m.watchers[c]) {
      assert WatcherInv(s, s.watchers[c]);
    }
    forall t | m.Outstanding(t) > 0
      ensures if t.id == w.id then t.id < m.nextId && t.generation <= w.generation else TagInv(m.Put(w), t)
    {
      FreshTag(s, m, w, t);
    }
  }

  lemma FreshTag(s: State, m: State, w: Watcher, t: Tag)
    requires Inv(s) && w.ch !in s.watchers && w.id == s.nextId && m.Outstanding(t) > 0
    requires m == s.(nextId := s.nextId + 1, idIndex := s.idIndex[w.id := w.ch])
    ensures t.id != w.id && TagInv(m.Put(w), t)
  {
    assert s.Outstanding(t) > 0;
    assert TagInv(s, t);
  }

  lemma AddKeepsInv(s: State, ch: Channel, fd: nat, events: Mask)
    requires Inv(s) && Small(s) && Small(Add(s, ch, fd, events))
    ensures Inv(Add(s, ch, fd, events))
  {
    if events == 0 {
    } else if ch in s.watchers {
      ModKeepsInv(s, ch, events);
    } else {
      AddNewKeepsInv(s, ch, fd, events);
    }
  }

  lemma AddNewKeepsInv(s: State, ch: Channel, fd: nat, events: Mask)
    requires Inv(s) && Small(s) && events != 0 && ch !in s.watchers
    ensures Inv(Add(s, ch, fd, events))
  {
    var w := Watcher(ch, fd, s.nextId, 0, events, false, false, None);
    var m := s.(nextId := s.nextId + 1, idIndex := s.idIndex[s.nextId := ch]);
    assert AllocId(s.nextId) == (s.nextId, s.nextId + 1);
    assert Add(s, ch, fd, events) == SubmitPollAdd(m, w);
    FreshInvBut(s, m, w);
    SubmitPollAddKeepsInv(m, w);
  }

  lemma CompleteKeepsInv(s: State, t: Tag)
    requires Inv(s)
    ensures Inv(Apply(s, Complete(t)))
  {
    var s' := Apply(s, Complete(t));
    assert forall u :: s'.Outstanding(u) == s.Outstanding(u);
    forall ch | ch in s'.watchers ensures WatcherInv(s', s'.watchers[ch]) {
      assert WatcherInv(s, s.watchers[ch]);
    }
    forall u | s'.Outstanding(u) > 0 ensures TagInv(s', u) {
      assert s.Outstanding(u) > 0;
      assert TagInv(s, u);
    }
  }

  /** Taking a completion out of the queue breaks at most the watcher whose current poll it is. */
  lemma TakeOneCompletion(s: State, s1: State, t: Tag)
    requires Inv(s) && s.arrived[t] > 0 && s1 == s.(arrived := s.arrived - multiset{t})
    ensures forall u :: s1.Outstanding(u) == s.Outstanding(u) - (if u == t then 1 else 0)
    ensures Inverse(s1)
    ensures forall u :: s1.Outstanding(u) > 0 ==> TagInv(s1, u)
    ensures forall ch :: ch in s1.watchers && s1.watchers[ch].tag != Some(t) ==> WatcherInv(s1, s1.watchers[ch])
    ensures TagInv(s1, t)
  {
    forall u | s1.Outstanding(u) > 0 || u == t ensures TagInv(s1, u) {
      assert s.Outstanding(u) > 0;
      assert TagInv(s, u);
    }
    forall ch | ch in s1.watchers && s1.watchers[ch].tag != Some(t) ensures WatcherInv(s1, s1.watchers[ch]) {
      assert WatcherInv(s, s.watchers[ch]);
    }
  }

  /** The same, from the point of view of the watcher the completion is for. */
  lemma CompletionInvBut(s: State, s1: State, t: Tag, w: Watcher)
    requires Inv(s) && s.arrived[t] > 0 && s1 == s.(arrived := s.arrived - multiset{t})
    requires w.ch in s.watchers && s.watchers[w.ch].id == t.id == w.id
    requires w.generation == s.watchers[w.ch].generation
    ensures InvBut(s1, w)
  {
    TakeOneCompletion(s, s1, t);
    InvGivesInvBut(s, w);
    forall ch | ch in s1.watchers && ch != w.ch ensures WatcherInv(s1, s1.watchers[ch]) {
      assert WatcherInv(s, s.watchers[ch]);
      assert s.watchers[ch].id != w.id;
    }
    assert s1.Put(w).watchers == s.Put(w).watchers;
    forall u | s1.Outstanding(u) > 0
      ensures if u.id == w.id then u.id < s1.nextId && u.generation <= w.generation else TagInv(s1.Put(w), u)
    {
      assert s.Outstanding(u) > 0;
      assert u.id != w.id ==> TagInv(s.Put(w), u);
    }
  }

  /** The current poll of a watcher has completed. */
  lemma CurrentPollKeepsInv(s: State, s1: State, w: Watcher, t: Tag, res: Option<Mask>)
    requires Inv(s) && s.arrived[t] > 0 && s1 == s.(arrived := s.arrived - multiset{t})
    requires w.ch in s.watchers && w == s.watchers[w.ch] && t == Tag(w.id, w.generation, Poll)
    requires Small(HandlePollCqe(s1, w, t, res))
    ensures Inv(HandlePollCqe(s1, w, t, res))
  {
    var w1 := w.(armed := false);
    assert WatcherInv(s, w);
    CompletionInvBut(s, s1, t, w1);
    if res == None || PollMaskToEpoll(res.value) == 0 {
      CancelIsBehind(s, w);
      FailedPollKeepsInv(s1, w1, t);
    } else if w.pendingDelete {
      EraseKeepsInv(s1, w1);
    } else {
      DeliveredPollKeepsInv(s1, w1, Event(w.ch, PollMaskToEpoll(res.value)));
    }
  }

  lemma DeliveredPollKeepsInv(s1: State, w1: Watcher, e: Event)
    requires InvBut(s1, w1) && w1.events != 0 && !w1.pendingDelete
    requires w1.generation < GEN_MOD && Small(SubmitPollAdd(s1.(delivered := s1.delivered + [e]), w1))
    ensures Inv(SubmitPollAdd(s1.(delivered := s1.delivered + [e]), w1))
  {
    var s2 := s1.(delivered := s1.delivered + [e]);
    DeliveredInvBut(s1, s2, w1);
    assert SubmitPollAdd(s2, w1).watchers[w1.ch].generation == NextGeneration(w1.generation);
    SubmitPollAddKeepsInv(s2, w1);
  }

  /** A watcher that is not being deleted has no cancellation of its current generation under way. */
  lemma CancelIsBehind(s: State, w: Watcher)
    requires Inv(s) && w.ch in s.watchers && w == s.watchers[w.ch]
    ensures !w.pendingDelete ==> s.Outstanding(Tag(w.id, w.generation, Remove)) == 0
  {
    if s.Outstanding(Tag(w.id, w.generation, Remove)) > 0 {
      assert TagInv(s, Tag(w.id, w.generation, Remove));
    }
  }

  lemma HandlePollKeepsInv(s: State, t: Tag, res: Option<Mask>)
    requires Inv(s) && Small(s) && s.arrived[t] > 0 && t.kind == Poll && t.id in s.idIndex
    requires Small(Apply(s, Process(t, res)))
    ensures Inv(Apply(s, Process(t, res)))
  {
    var s1 := s.(arrived := s.arrived - multiset{t});
    var w := s.watchers[s.idIndex[t.id]];
    if t.generation != w.generation {
      StalePollKeepsInv(s, s1, t, w);
    } else {
      CurrentPollKeepsInv(s, s1, w, t, res);
    }
  }

  lemma DeliveredInvBut(s: State, s': State, w: Watcher)
    requires InvBut(s, w) && s' == s.(delivered := s'.delivered, failed := s'.failed) && s.failed <= s'.failed
    ensures InvBut(s', w)
  {
    forall ch | ch in s'.watchers && ch != w.ch ensures WatcherInv(s', s'.watchers[ch]) {
      assert WatcherInv(s, s.watchers[ch]);
    }
    forall t | s'.Outstanding(t) > 0
      ensures if t.id == w.id then t.id < s'.nextId && t.generation <= w.generation else TagInv(s'.Put(w), t)
    {
      assert s.Outstanding(t) > 0;
      assert t.id != w.id ==> TagInv(s.Put(w), t);
    }
  }

  /** A poll that failed leaves its watcher unarmed, or erases it when it was being deleted. */
  lemma FailedPollKeepsInv(s: State, w: Watcher, t: Tag)
    requires InvBut(s, w) && !w.armed && 1 <= w.generation < GEN_MOD && s.Outstanding(t) == 0
    requires w.tag == Some(t) && t == Tag(w.id, w.generation, Poll)
    requires !w.pendingDelete ==> w.events != 0 && t in s.masks
    requires !w.pendingDelete ==> s.Outstanding(Tag(w.id, w.generation, Remove)) == 0
    ensures Inv(Cleanup(s.(failed := s.failed + {t}), w))
  {
    var s' := s.(failed := s.failed + {t});
    DeliveredInvBut(s, s', w);
    if w.pendingDelete {
      EraseKeepsInv(s', w);
    } else {
      PutKeepsInv(s', w);
    }
  }

  /** A completion of an older generation changes nothing. */
  lemma StalePollKeepsInv(s: State, s1: State, t: Tag, w: Watcher)
    requires Inv(s) && s.arrived[t] > 0 && s1 == s.(arrived := s.arrived - multiset{t})
    requires w.ch in s.watchers && w == s.watchers[w.ch] && t.id == w.id && t != Tag(w.id, w.generation, Poll)
    ensures Inv(s1)
  {
    TakeOneCompletion(s, s1, t);
    forall ch | ch in s1.watchers ensures WatcherInv(s1, s1.watchers[ch]) {
      assert WatcherInv(s, s.watchers[ch]);
      if ch != w.ch {
        assert s.watchers[ch].id != w.id;
      }
    }
  }

  lemma HandleRemoveKeepsInv(s: State, t: Tag, res: Option<Mask>)
    requires Inv(s) && Small(s) && s.arrived[t] > 0 && t.kind == Remove && t.id in s.idIndex
    ensures Inv(Apply(s, Process(t, res)))
  {
    var s1 := s.(arrived := s.arrived - multiset{t});
    var w := s.watchers[s.idIndex[t.id]];
    if t.generation == w.generation {
      CurrentRemoveKeepsInv(s, s1, t, w);
    } else {
      assert WatcherInv(s, w);
      StalePollKeepsInv(s, s1, t, w);
      assert s1.Put(w) == s1;
    }
  }

  /** A cancellation of the current generation: the watcher was being deleted, and now it goes. */
  lemma CurrentRemoveKeepsInv(s: State, s1: State, t: Tag, w: Watcher)
    requires Inv(s) && s.arrived[t] > 0 && s1 == s.(arrived := s.arrived - multiset{t})
    requires w.ch in s.watchers && w == s.watchers[w.ch] && t == Tag(w.id, w.generation, Remove)
    ensures Inv(HandleRemoveCqe(s1, w, t))
  {
    assert TagInv(s, t) by { assert s.Outstanding(t) > 0; }
    CompletionInvBut(s, s1, t, w.(armed := false));
    EraseKeepsInv(s1, w.(armed := false));
  }

  lemma StepKeepsInv(s: State, a: Action)
    requires Inv(s) && Small(s) && Small(Apply(s, a))
    ensures Inv(Apply(s, a))
  {
    match a
    case DoAdd(ch, fd, events) => AddKeepsInv(s, ch, fd, events);
    case DoMod(ch, fd, events) =>
      if ch !in s.watchers {
        AddKeepsInv(s, ch, fd, events);
      } else if events == 0 {
        DelKeepsInv(s, ch);
      } else {
        ModKeepsInv(s, ch, events);
      }
    case DoDel(ch) => DelKeepsInv(s, ch);
    case Complete(t) => CompleteKeepsInv(s, t);
    case Process(t, res) =>
      if s.arrived[t] > 0 {
        var s1 := s.(arrived := s.arrived - multiset{t});
        if t.id !in s.idIndex {
          TakeOneCompletion(s, s1, t);
          forall ch | ch in s1.watchers ensures WatcherInv(s1, s1.watchers[ch]) {
            assert WatcherInv(s, s.watchers[ch]);
          }
        } else if t.kind == Poll {
          HandlePollKeepsInv(s, t, res);
        } else {
          HandleRemoveKeepsInv(s, t, res);
        }
      }
  }

  // ---------------------------------------------------------------- what the poller promises

  lemma {:induction false} RunKeepsInv(s: State, acts: seq<Action>)
    requires Inv(s) && SmallRun(s, acts)
    ensures Inv(ApplyAll(s, acts))
    decreases acts
  {
    if acts != [] {
      StepKeepsInv(s, acts[0]);
      RunKeepsInv(Apply(s, acts[0]), acts[1..]);
    }
  }

  /** However changes, cancellations and completions interleave: a watcher that is not being deleted
      has exactly one poll of its current generation in flight or waiting to be processed, armed
      with the mask wanted now, unless its last poll ended in an error or an empty mask, and then it
      has none. A watcher that is being deleted stays only while such a poll is outstanding. */
  lemma WatchersAfterRun(acts: seq<Action>, ch: Channel)
    requires SmallRun(Empty, acts) && ch in ApplyAll(Empty, acts).watchers
    ensures var s := ApplyAll(Empty, acts);
      var w := s.watchers[ch];
      && w.tag == Some(Tag(w.id, w.generation, Poll))
      && s.Outstanding(w.tag.value) == (if w.armed then 1 else 0)
      && (w.pendingDelete ==> s.Outstanding(w.tag.value) == 1)
      && (!w.pendingDelete && w.tag.value !in s.failed ==>
            s.Outstanding(w.tag.value) == 1 && w.tag.value in s.masks && s.masks[w.tag.value] == EpollToPoll(w.events))
  {
    RunKeepsInv(Empty, acts);
    var s := ApplyAll(Empty, acts);
    assert WatcherInv(s, s.watchers[ch]);
  }

  /** Poll hands up an event only for a completion of the current poll of a watcher that is not being
      deleted, and that poll was armed with the mask the watcher wants now. */
  lemma DeliveredIsCurrent(s: State, t: Tag, res: Option<Mask>)
    requires Inv(s) && s.arrived[t] > 0 && Small(s)
    ensures var s' := Apply(s, Process(t, res));
      || s'.delivered == s.delivered
      || (&& res.Some? && t.id in s.idIndex
          && var ch := s.idIndex[t.id];
          && s'.delivered == s.delivered + [Event(ch, PollMaskToEpoll(res.value))]
          && ch in s.watchers && !s.watchers[ch].pendingDelete && s.watchers[ch].tag == Some(t)
          && t in s.masks && s.masks[t] == EpollToPoll(s.watchers[ch].events))
  {
    if t.id in s.idIndex {
      var w := s.watchers[s.idIndex[t.id]];
      assert WatcherInv(s, w);
      assert TagInv(s, t) by { assert s.Outstanding(t) > 0; }
      if t.kind == Poll && t.generation == w.generation {
        assert s.Outstanding(w.tag.value) > 0;
      }
    }
  }

  /** t is the poll the watcher of ch is waiting for. */
  ghost predicate AwaitedBy(s: State, t: Tag, ch: Channel) {
    ch in s.watchers && s.watchers[ch].tag == Some(t)
  }

  /** The completion brings at least one of the events that are passed on. */
  predicate Reports(res: Option<Mask>) {
    res.Some? && res.value & 0x201F != 0
  }

  /** Exactly when an event is handed up: the completion is that of the poll some watcher is waiting
      for, the watcher is not being deleted, and the result reports something. Then it is one event, for
      that channel, with what was reported; otherwise nothing. */
  lemma DeliversIff(s: State, t: Tag, res: Option<Mask>)
    requires Inv(s) && s.arrived[t] > 0
    ensures forall ch :: AwaitedBy(s, t, ch) && !s.watchers[ch].pendingDelete && Reports(res) ==>
      Apply(s, Process(t, res)).delivered == s.delivered + [Event(ch, PollMaskToEpoll(res.value))]
    ensures (forall ch :: AwaitedBy(s, t, ch) ==> s.watchers[ch].pendingDelete || !Reports(res)) ==>
      Apply(s, Process(t, res)).delivered == s.delivered
  {
    if res.Some? {
      ReportedBits(res.value);
    }
    if ch :| AwaitedBy(s, t, ch) {
      AwaitedIsCurrent(s, t, ch);
      OneAwaits(s, t, ch);
    } else {
      NobodyAwaits(s, t, res);
    }
  }

  lemma AwaitedIsCurrent(s: State, t: Tag, ch: Channel)
    requires Inv(s) && AwaitedBy(s, t, ch)
    ensures t.id in s.idIndex && s.idIndex[t.id] == ch && t == Tag(s.watchers[ch].id, s.watchers[ch].generation, Poll)
  {
    assert WatcherInv(s, s.watchers[ch]);
  }

  lemma OneAwaits(s: State, t: Tag, ch: Channel)
    requires Inv(s) && AwaitedBy(s, t, ch)
    ensures forall c :: AwaitedBy(s, t, c) ==> c == ch
  {
    forall c | AwaitedBy(s, t, c) ensures c == ch {
      AwaitedIsCurrent(s, t, c);
      AwaitedIsCurrent(s, t, ch);
    }
  }

  /** A completion no watcher is waiting for changes neither the events nor the record of failures. */
  lemma NobodyAwaits(s: State, t: Tag, res: Option<Mask>)
    requires Inv(s) && s.arrived[t] > 0 && forall ch :: !AwaitedBy(s, t, ch)
    ensures Apply(s, Process(t, res)).delivered == s.delivered
    ensures Apply(s, Process(t, res)).failed == s.failed
  {
    if t.id in s.idIndex {
      var w := s.watchers[s.idIndex[t.id]];
      assert WatcherInv(s, w);
      assert !AwaitedBy(s, t, w.ch);
    }
  }

  /** What enters the record of failed polls: the poll a watcher is waiting for, when its completion
      brings an error or nothing that is passed on. */
  lemma FailsIff(s: State, t: Tag, res: Option<Mask>)
    requires Inv(s) && s.arrived[t] > 0
    ensures Apply(s, Process(t, res)).failed ==
      s.failed + (if !Reports(res) && exists ch :: AwaitedBy(s, t, ch) then {t} else {})
  {
    if res.Some? {
      ReportedBits(res.value);
    }
    if ch :| AwaitedBy(s, t, ch) {
      AwaitedIsCurrent(s, t, ch);
    } else {
      NobodyAwaits(s, t, res);
    }
  }

  /** No other action touches either record. */
  lemma OnlyCompletionsAreRecorded(s: State, a: Action)
    requires !a.Process?
    ensures Apply(s, a).delivered == s.delivered && Apply(s, a).failed == s.failed
  {
    if a.DoMod? {
      DelRecordsNothing(s, a.ch);
    }
  }

  lemma DelRecordsNothing(s: State, ch: Channel)
    ensures Del(s, ch).delivered == s.delivered && Del(s, ch).failed == s.failed
  {}

  /** The requests an action puts to the kernel: a change or a deletion cancels the poll in flight, a
      registration polls with the next generation, and so does an event that has been handed up. */
  ghost function Asked(s: State, a: Action): multiset<Tag> {
    match a
    case Complete(_) => multiset{}
    case Process(t, res) =>
      if s.arrived[t] > 0 && Reports(res) && exists ch :: AwaitedBy(s, t, ch) && !s.watchers[ch].pendingDelete
      then multiset{Tag(t.id, t.generation + 1, Poll)} else multiset{}
    case DoDel(ch) => Cancel(s, ch)
    case DoMod(ch, _, events) =>
      if events == 0 then Cancel(s, ch)
      else if ch !in s.watchers then multiset{Tag(s.nextId, 1, Poll)}
      else Cancel(s, ch) + Rearm(s, ch)
    case DoAdd(ch, _, events) =>
      if events == 0 then multiset{}
      else if ch !in s.watchers then multiset{Tag(s.nextId, 1, Poll)}
      else Cancel(s, ch) + Rearm(s, ch)
  }

  ghost function Cancel(s: State, ch: Channel): multiset<Tag> {
    if ch in s.watchers && s.watchers[ch].armed
    then multiset{Tag(s.watchers[ch].id, s.watchers[ch].generation, Remove)} else multiset{}
  }

  ghost function Rearm(s: State, ch: Channel): multiset<Tag> {
    if ch in s.watchers && !s.watchers[ch].pendingDelete
    then multiset{Tag(s.watchers[ch].id, s.watchers[ch].generation + 1, Poll)} else multiset{}
  }

  /** The counters have not reached their widths, not even after one more generation. */
  ghost predicate Roomy(s: State) {
    && s.nextId < ID_MOD - 1
    && forall ch :: ch in s.watchers ==> s.watchers[ch].generation + 1 < GEN_MOD
  }

  lemma RegisterNewAsks(s: State, ch: Channel, fd: nat, events: Mask)
    requires Inv(s) && Roomy(s) && events != 0 && ch !in s.watchers
    ensures Add(s, ch, fd, events).flying == s.flying + multiset{Tag(s.nextId, 1, Poll)}
  {
    assert AllocId(s.nextId) == (s.nextId, s.nextId + 1);
  }

  lemma PollAddFlying(s: State, w: Watcher)
    requires w.events != 0 && w.generation + 1 < GEN_MOD
    ensures SubmitPollAdd(s, w).flying ==
      s.flying + (if w.pendingDelete then multiset{} else multiset{Tag(w.id, w.generation + 1, Poll)})
  {}

  lemma PollRemoveFlying(s: State, w: Watcher)
    requires w.tag != None && w.generation < GEN_MOD
    ensures SubmitPollRemove(s, w).flying ==
      s.flying + (if w.armed then multiset{Tag(w.id, w.generation, Remove)} else multiset{})
  {}

  lemma ChangeAsks(s: State, ch: Channel, events: Mask)
    requires Inv(s) && Roomy(s) && events != 0 && ch in s.watchers
    ensures ModKnown(s, ch, events).flying == s.flying + (Cancel(s, ch) + Rearm(s, ch))
  {
    var w := s.watchers[ch].(events := events);
    assert WatcherInv(s, s.watchers[ch]);
    PollRemoveFlying(s, w);
    PollAddFlying(SubmitPollRemove(s, w), w);
  }

  lemma DelAsks(s: State, ch: Channel)
    requires Inv(s) && Roomy(s)
    ensures Del(s, ch).flying == s.flying + Cancel(s, ch)
  {
    if ch in s.watchers {
      assert WatcherInv(s, s.watchers[ch]);
    }
  }

  /** A completion that is not awaited puts no request to the kernel. */
  lemma UnawaitedAsks(s: State, t: Tag, res: Option<Mask>)
    requires Inv(s) && s.arrived[t] > 0 && forall ch :: !AwaitedBy(s, t, ch)
    ensures Apply(s, Process(t, res)).flying == s.flying
  {
    if t.id in s.idIndex {
      var w := s.watchers[s.idIndex[t.id]];
      assert WatcherInv(s, w);
      assert !AwaitedBy(s, t, w.ch);
    }
  }

  lemma PollCqeAsks(s: State, w: Watcher, t: Tag, res: Option<Mask>)
    requires t.generation == w.generation && w.generation + 1 < GEN_MOD && w.events != 0
    ensures HandlePollCqe(s, w, t, res).flying ==
      s.flying + (if Reports(res) && !w.pendingDelete then multiset{Tag(w.id, w.generation + 1, Poll)} else multiset{})
  {
    if res.Some? {
      ReportedBits(res.value);
    }
    if Reports(res) && !w.pendingDelete {
      PollAddFlying(s.(delivered := s.delivered + [Event(w.ch, PollMaskToEpoll(res.value))]), w.(armed := false));
    }
  }

  lemma AwaitedIsHandled(s: State, t: Tag, res: Option<Mask>, ch: Channel)
    requires Inv(s) && s.arrived[t] > 0 && AwaitedBy(s, t, ch)
    ensures Apply(s, Process(t, res)) ==
      HandlePollCqe(s.(arrived := s.arrived - multiset{t}), s.watchers[ch], t, res)
  {
    AwaitedIsCurrent(s, t, ch);
  }

  lemma AwaitedAsks(s: State, t: Tag, res: Option<Mask>, ch: Channel)
    requires Inv(s) && Roomy(s) && s.arrived[t] > 0 && AwaitedBy(s, t, ch)
    ensures Apply(s, Process(t, res)).flying ==
      s.flying + (if Reports(res) && !s.watchers[ch].pendingDelete then multiset{Tag(t.id, t.generation + 1, Poll)}
                  else multiset{})
  {
    AwaitedIsHandled(s, t, res, ch);
    AwaitedIsCurrent(s, t, ch);
    var w := s.watchers[ch];
    if w.pendingDelete {
      PollCqeOfDeleted(s.(arrived := s.arrived - multiset{t}), w, t, res);
    } else {
      assert WatcherInv(s, w);
      PollCqeAsks(s.(arrived := s.arrived - multiset{t}), w, t, res);
    }
  }

  lemma PollCqeOfDeleted(s: State, w: Watcher, t: Tag, res: Option<Mask>)
    requires w.pendingDelete
    ensures HandlePollCqe(s, w, t, res).flying == s.flying
  {}

  lemma ProcessAsks(s: State, t: Tag, res: Option<Mask>)
    requires Inv(s) && Roomy(s) && s.arrived[t] > 0
    ensures Apply(s, Process(t, res)).flying == s.flying + Asked(s, Process(t, res))
  {
    if ch :| AwaitedBy(s, t, ch) {
      OneAwaits(s, t, ch);
      AwaitedAsks(s, t, res, ch);
    } else {
      UnawaitedAsks(s, t, res);
    }
  }

  /** Every action puts exactly these requests to the kernel; only a completion takes one away. */
  lemma AsksExactly(s: State, a: Action)
    requires Inv(s) && Roomy(s)
    ensures Apply(s, a).flying ==
      (if a.Complete? && s.flying[a.tag] > 0 then s.flying - multiset{a.tag} else s.flying) + Asked(s, a)
  {
    match a
    case DoAdd(ch, fd, events) =>
      if events != 0 && ch in s.watchers {
        ChangeAsks(s, ch, events);
      } else if events != 0 {
        RegisterNewAsks(s, ch, fd, events);
      }
    case DoMod(ch, fd, events) =>
      if events == 0 {
        DelAsks(s, ch);
      } else if ch in s.watchers {
        ChangeAsks(s, ch, events);
      } else {
        RegisterNewAsks(s, ch, fd, events);
      }
    case DoDel(ch) => DelAsks(s, ch);
    case Complete(_) =>
    case Process(t, res) =>
      if s.arrived[t] > 0 {
        ProcessAsks(s, t, res);
      }
  }

  lemma CleanupLeavesIff(s: State, w: Watcher, ch: Channel)
    requires Keyed(s) && ch in s.watchers
    ensures ch !in Cleanup(s, w).watchers <==> w.ch == ch && w.pendingDelete && !w.armed
  {}

  lemma PollCqeLeavesIff(s: State, w: Watcher, t: Tag, res: Option<Mask>, ch: Channel)
    requires Keyed(s) && ch in s.watchers
    ensures ch !in HandlePollCqe(s, w, t, res).watchers <==>
      w.ch == ch && w.pendingDelete && t.generation == w.generation
  {
    var w1 := w.(armed := false);
    CleanupLeavesIff(s, w1, ch);
    CleanupLeavesIff(s.(failed := s.failed + {t}), w1, ch);
  }

  lemma ProcessLeavesIff(s: State, t: Tag, res: Option<Mask>, ch: Channel)
    requires Inv(s) && s.arrived[t] > 0 && ch in s.watchers
    ensures ch !in Apply(s, Process(t, res)).watchers <==>
      s.watchers[ch].pendingDelete && t.id == s.watchers[ch].id && t.generation == s.watchers[ch].generation
  {
    var s1 := s.(arrived := s.arrived - multiset{t});
    if t.id in s.idIndex {
      var w := s.watchers[s.idIndex[t.id]];
      if t.kind == Poll {
        PollCqeLeavesIff(s1, w, t, res, ch);
      } else {
        RemoveCqeLeavesIff(s, w, t, ch);
      }
    }
  }

  lemma RemoveCqeLeavesIff(s: State, w: Watcher, t: Tag, ch: Channel)
    requires Inv(s) && s.arrived[t] > 0 && ch in s.watchers && t.kind == Remove
    requires w.ch in s.watchers && s.watchers[w.ch] == w && t.id == w.id
    ensures ch !in HandleRemoveCqe(s.(arrived := s.arrived - multiset{t}), w, t).watchers <==>
      w.ch == ch && w.pendingDelete && t.generation == w.generation
  {
    assert TagInv(s, t) by { assert s.Outstanding(t) > 0; }
    assert WatcherInv(s, w);
    var s1 := s.(arrived := s.arrived - multiset{t});
    CleanupLeavesIff(s1, if t.generation == w.generation then w.(armed := false) else w, ch);
  }

  lemma DelLeavesIff(s: State, ch: Channel, c: Channel)
    requires Keyed(s) && ch in s.watchers
    ensures ch !in Del(s, c).watchers <==> c == ch && !s.watchers[ch].armed
  {
    if c in s.watchers {
      var w := s.watchers[c].(events := 0, pendingDelete := true);
      CleanupLeavesIff(SubmitPollRemove(s, w), w, ch);
    }
  }

  lemma RegisterKeeps(s: State, c: Channel, fd: nat, events: Mask, ch: Channel)
    requires ch in s.watchers && events != 0
    ensures ch in Add(s, c, fd, events).watchers && ch in Mod(s, c, fd, events).watchers
  {}

  /** When a watcher leaves: when it is deleted while no poll of it is in flight, or when it is being
      deleted and the completion of its current poll, or of the cancellation of it, is processed. */
  lemma LeavesIff(s: State, a: Action, ch: Channel)
    requires Inv(s) && ch in s.watchers
    ensures ch !in Apply(s, a).watchers <==>
      || ((a.DoDel? || (a.DoMod? && a.events == 0)) && a.ch == ch && !s.watchers[ch].armed)
      || (a.Process? && s.arrived[a.tag] > 0 && s.watchers[ch].pendingDelete
          && a.tag.id == s.watchers[ch].id && a.tag.generation == s.watchers[ch].generation)
  {
    match a
    case DoAdd(c, fd, events) =>
      if events != 0 {
        RegisterKeeps(s, c, fd, events, ch);
      }
    case DoMod(c, fd, events) =>
      if events != 0 {
        RegisterKeeps(s, c, fd, events, ch);
      } else {
        DelLeavesIff(s, ch, c);
      }
    case DoDel(c) => DelLeavesIff(s, ch, c);
    case Complete(_) =>
    case Process(t, res) =>
      if s.arrived[t] > 0 {
        ProcessLeavesIff(s, t, res, ch);
      }
  }

  /** What holds in every run, however far the counters have gone: every watcher is kept under its own
      channel, and requests carry 30 bits of generation. */
  ghost predicate Loose(s: State) {
    Keyed(s) && TagsFit(s)
  }

  ghost predicate Keyed(s: State) {
    forall ch :: ch in s.watchers ==> s.watchers[ch].ch == ch
  }

  ghost predicate TagsFit(s: State) {
    forall t :: s.Outstanding(t) > 0 ==> t.generation < GEN_MOD
  }

  lemma OneMoreRequest(s: State, s': State, t: Tag)
    requires TagsFit(s) && t.generation < GEN_MOD
    requires s'.flying == s.flying + multiset{t} && s'.arrived == s.arrived
    ensures TagsFit(s')
  {
    forall u | s'.Outstanding(u) > 0 ensures u.generation < GEN_MOD {
      assert u == t || s.Outstanding(u) > 0;
    }
  }

  lemma PollAddIsLoose(s: State, w: Watcher)
    requires Loose(s)
    ensures Loose(SubmitPollAdd(s, w))
  {
    var s' := SubmitPollAdd(s, w);
    if !(w.events == 0 || w.pendingDelete) {
      OneMoreRequest(s, s', TagOf(w.id, NextGeneration(w.generation), Poll));
    }
  }

  lemma PollRemoveIsLoose(s: State, w: Watcher)
    requires Loose(s)
    ensures Loose(SubmitPollRemove(s, w))
  {
    if w.armed && w.tag != None {
      OneMoreRequest(s, SubmitPollRemove(s, w), TagOf(w.id, w.generation, Remove));
    }
  }

  lemma CleanupIsLoose(s: State, w: Watcher)
    requires Loose(s)
    ensures Loose(Cleanup(s, w))
  {}

  lemma ModIsLoose(s: State, ch: Channel, fd: nat, events: Mask)
    requires Loose(s)
    ensures Loose(Mod(s, ch, fd, events)) && Loose(Add(s, ch, fd, events))
  {
    DelIsLoose(s, ch);
    if ch in s.watchers {
      var w := s.watchers[ch].(events := events);
      PollRemoveIsLoose(s, w);
      PollAddIsLoose(SubmitPollRemove(s, w), w);
    } else {
      var (id, next) := AllocId(s.nextId);
      var m := s.(nextId := next, idIndex := s.idIndex[id := ch]);
      assert Loose(m);
      PollAddIsLoose(m, Watcher(ch, fd, id, 0, events, false, false, None));
    }
  }

  lemma DelIsLoose(s: State, ch: Channel)
    requires Loose(s)
    ensures Loose(Del(s, ch))
  {
    if ch in s.watchers {
      var w := s.watchers[ch].(events := 0, pendingDelete := true);
      PollRemoveIsLoose(s, w);
      CleanupIsLoose(SubmitPollRemove(s, w), w);
    }
  }

  lemma ProcessIsLoose(s: State, t: Tag, res: Option<Mask>)
    requires Loose(s)
    ensures Loose(ProcessCqe(s, t, res))
  {
    if t.id in s.idIndex && s.idIndex[t.id] in s.watchers {
      var w := s.watchers[s.idIndex[t.id]];
      var w1 := w.(armed := false);
      if t.kind == Poll {
        CleanupIsLoose(s.(failed := s.failed + {t}), w1);
        CleanupIsLoose(s, w1);
        if res.Some? {
          PollAddIsLoose(s.(delivered := s.delivered + [Event(w.ch, PollMaskToEpoll(res.value))]), w1);
        }
      } else {
        CleanupIsLoose(s, w);
        CleanupIsLoose(s, w1);
      }
    }
  }

  /** The kernel moves and takes requests; none is made up. */
  lemma KernelIsLoose(s: State, s': State)
    requires Loose(s) && s' == s.(flying := s'.flying, arrived := s'.arrived)
    requires forall t :: s'.Outstanding(t) <= s.Outstanding(t)
    ensures Loose(s')
  {}

  lemma StepIsLoose(s: State, a: Action)
    requires Loose(s)
    ensures Loose(Apply(s, a))
  {
    match a
    case DoAdd(ch, fd, events) => ModIsLoose(s, ch, fd, events);
    case DoMod(ch, fd, events) => ModIsLoose(s, ch, fd, events);
    case DoDel(ch) => DelIsLoose(s, ch);
    case Complete(t) => KernelIsLoose(s, Apply(s, a));
    case Process(t, res) =>
      if s.arrived[t] > 0 {
        var s1 := s.(arrived := s.arrived - multiset{t});
        KernelIsLoose(s, s1);
        ProcessIsLoose(s1, t, res);
      }
  }

  ghost predicate Gone(s: State, ch: Channel) {
    ch in s.watchers ==> s.watchers[ch].pendingDelete
  }

  predicate Registers(a: Action, ch: Channel) {
    (a.DoAdd? || a.DoMod?) && a.ch == ch
  }

  /** later extends earlier, with no event of ch in the extension. */
  ghost predicate SilentFor(earlier: seq<Event>, later: seq<Event>, ch: Channel) {
    && |earlier| <= |later| && later[..|earlier|] == earlier
    && forall k :: |earlier| <= k < |later| ==> later[k].ch != ch
  }

  lemma ProcessKeepsGone(s: State, t: Tag, res: Option<Mask>, ch: Channel)
    requires Keyed(s) && Gone(s, ch)
    ensures Gone(ProcessCqe(s, t, res), ch) && SilentFor(s.delivered, ProcessCqe(s, t, res).delivered, ch)
  {
    if t.id in s.idIndex && s.idIndex[t.id] in s.watchers {
      var w := s.watchers[s.idIndex[t.id]];
      assert w.ch == s.idIndex[t.id];
    }
  }

  lemma OtherChannelKeepsGone(s: State, other: Channel, fd: nat, events: Mask, ch: Channel)
    requires Keyed(s) && Gone(s, ch) && other != ch
    ensures Gone(Add(s, other, fd, events), ch) && Add(s, other, fd, events).delivered == s.delivered
    ensures Gone(Mod(s, other, fd, events), ch) && Mod(s, other, fd, events).delivered == s.delivered
  {
    OtherDelKeepsGone(s, other, ch);
  }

  lemma OtherDelKeepsGone(s: State, other: Channel, ch: Channel)
    requires Keyed(s) && Gone(s, ch)
    ensures Gone(Del(s, other), ch) && Del(s, other).delivered == s.delivered
  {}

  lemma StepKeepsGone(s: State, a: Action, ch: Channel)
    requires Keyed(s) && Gone(s, ch) && !Registers(a, ch)
    ensures Gone(Apply(s, a), ch) && SilentFor(s.delivered, Apply(s, a).delivered, ch)
  {
    match a
    case DoAdd(other, fd, events) => OtherChannelKeepsGone(s, other, fd, events, ch);
    case DoMod(other, fd, events) => OtherChannelKeepsGone(s, other, fd, events, ch);
    case DoDel(other) => OtherDelKeepsGone(s, other, ch);
    case Complete(_) =>
    case Process(t, res) =>
      if s.arrived[t] > 0 {
        ProcessKeepsGone(s.(arrived := s.arrived - multiset{t}), t, res, ch);
      }
  }

  lemma SilentTrans(a: seq<Event>, b: seq<Event>, c: seq<Event>, ch: Channel)
    requires SilentFor(a, b, ch) && SilentFor(b, c, ch)
    ensures SilentFor(a, c, ch)
  {
    assert c[..|a|] == b[..|a|];
    forall k | |a| <= k < |c| ensures c[k].ch != ch {
      if k < |b| {
        assert c[k] == b[k];
      }
    }
  }

  /** After Del(ch), and until ch is registered again, no event is handed up for ch; no counter limits
      this. */
  lemma {:induction false} NothingAfterDel(s: State, acts: seq<Action>, ch: Channel)
    requires Loose(s) && Gone(s, ch)
    requires forall a :: a in acts ==> !Registers(a, ch)
    ensures SilentFor(s.delivered, ApplyAll(s, acts).delivered, ch)
    decreases acts
  {
    if acts != [] {
      StepKeepsGone(s, acts[0], ch);
      StepIsLoose(s, acts[0]);
      NothingAfterDel(Apply(s, acts[0]), acts[1..], ch);
      SilentTrans(s.delivered, Apply(s, acts[0]).delivered, ApplyAll(s, acts).delivered, ch);
    }
  }

  /** Every state a run reaches is loose, so NothingAfterDel applies after any Del. */
  lemma {:induction false} RunIsLoose(s: State, acts: seq<Action>)
    requires Loose(s)
    ensures Loose(ApplyAll(s, acts))
    decreases acts
  {
    if acts != [] {
      StepIsLoose(s, acts[0]);
      RunIsLoose(Apply(s, acts[0]), acts[1..]);
    }
  }

  lemma DelMakesGone(s: State, ch: Channel)
    requires Keyed(s)
    ensures Gone(Del(s, ch), ch) && Del(s, ch).delivered == s.delivered
  {}

  /** ch is polled with the mask ev and nothing else. */
  ghost predicate WatchedFor(s: State, ch: Channel, ev: Mask) {
    && ch in s.watchers && !s.watchers[ch].pendingDelete && s.watchers[ch].armed
    && s.watchers[ch].events == ev && s.watchers[ch].tag.Some?
    && s.watchers[ch].tag.value in s.masks
    && s.masks[s.watchers[ch].tag.value] == EpollToPoll(ev)
  }

  /** Registering takes effect exactly when no earlier watcher of the channel waits for deletion. */
  lemma RegisterWorksIff(s: State, ch: Channel, fd: nat, ev: Mask)
    requires Inv(s) && Small(s) && ev != 0
    ensures WatchedFor(Add(s, ch, fd, ev), ch, ev) <==> !(ch in s.watchers && s.watchers[ch].pendingDelete)
    ensures WatchedFor(Mod(s, ch, fd, ev), ch, ev) <==> !(ch in s.watchers && s.watchers[ch].pendingDelete)
  {
    if ch in s.watchers {
      var w := s.watchers[ch].(events := ev);
      assert ModKnown(s, ch, ev) == SubmitPollAdd(SubmitPollRemove(s, w), w);
    }
  }

  /** A channel deleted and added again before the completion of its poll has been processed is
      forgotten: the watcher is still marked for deletion after the second registration, and the
      completion, whatever its result, erases it. */
  lemma ReAddIsLost(s: State, ch: Channel, fd: nat, ev: Mask, res: Option<Mask>)
    requires Inv(s) && ch in s.watchers && s.watchers[ch].armed && !s.watchers[ch].pendingDelete
    requires s.watchers[ch].tag.Some? && s.arrived[s.watchers[ch].tag.value] > 0 && ev != 0
    ensures var again := Add(Del(s, ch), ch, fd, ev);
      && ch in again.watchers && again.watchers[ch].events == ev && !WatchedFor(again, ch, ev)
      && ch !in Apply(again, Process(s.watchers[ch].tag.value, res)).watchers
  {
    var w := s.watchers[ch];
    assert WatcherInv(s, w);
    var d := Del(s, ch);
    assert d.watchers[ch] == w.(events := 0, pendingDelete := true);
    assert d.idIndex == s.idIndex && d.arrived == s.arrived;
    var again := Add(d, ch, fd, ev);
    assert again.watchers[ch] == w.(events := ev, pendingDelete := true);
    assert again.idIndex == s.idIndex && again.arrived == s.arrived;
    ErasedByCompletion(again, w.tag.value, res, again.watchers[ch]);
  }

  lemma ApplyThree(s: State, a: Action, b: Action, c: Action)
    ensures ApplyAll(s, [a, b, c]) == Apply(Apply(Apply(s, a), b), c)
  {
    assert [a, b, c][1..] == [b, c] && [b, c][1..] == [c] && [c][1..] == [];
    assert ApplyAll(Apply(Apply(s, a), b), [c]) == Apply(Apply(Apply(s, a), b), c);
  }

  /** A new channel, once its poll has completed. */
  lemma AddedAndCompleted(ch: Channel, fd: nat, ev: Mask)
    requires ev != 0
    ensures var t := Tag(1, 1, Poll);
      var s := Apply(Apply(Empty, DoAdd(ch, fd, ev)), Complete(t));
      && Inv(s) && ch in s.watchers && s.watchers[ch] == Watcher(ch, fd, 1, 1, ev, false, true, Some(t))
      && s.arrived[t] > 0
  {
    var s1 := Add(Empty, ch, fd, ev);
    AddNewKeepsInv(Empty, ch, fd, ev);
    assert s1.watchers[ch] == Watcher(ch, fd, 1, 1, ev, false, true, Some(Tag(1, 1, Poll)));
    CompleteKeepsInv(s1, Tag(1, 1, Poll));
  }

  /** From the empty poller: add, the poll completes, delete, add again, process the completion. The
      last registration is nowhere. */
  lemma ReAddRun(ch: Channel, fd: nat, ev: Mask, again: Mask, res: Option<Mask>)
    requires ev != 0 && again != 0
    ensures var t := Tag(1, 1, Poll);
      ch !in ApplyAll(Empty, [DoAdd(ch, fd, ev), Complete(t)]
                             + [DoDel(ch), DoAdd(ch, fd, again), Process(t, res)]).watchers
  {
    var t := Tag(1, 1, Poll);
    var first, tail := [DoAdd(ch, fd, ev), Complete(t)], [DoDel(ch), DoAdd(ch, fd, again), Process(t, res)];
    ApplyAllSplits(Empty, first, tail);
    var s := Apply(Apply(Empty, first[0]), first[1]);
    assert first[1..] == [Complete(t)] && [Complete(t)][1..] == [];
    assert ApplyAll(Empty, first) == ApplyAll(Apply(Empty, first[0]), [Complete(t)]) == ApplyAll(s, []) == s;
    AddedAndCompleted(ch, fd, ev);
    ApplyThree(s, DoDel(ch), DoAdd(ch, fd, again), Process(t, res));
    ReAddIsLost(s, ch, fd, again, res);
  }

  lemma ErasedByCompletion(s: State, t: Tag, res: Option<Mask>, w: Watcher)
    requires s.arrived[t] > 0 && t.kind == Poll && t.id in s.idIndex && s.idIndex[t.id] == w.ch
    requires w.ch in s.watchers && s.watchers[w.ch] == w && w.pendingDelete && t.generation == w.generation
    ensures w.ch !in Apply(s, Process(t, res)).watchers
  {}

  // ---------------------------------------------------------------- the two tables

  /** watchers_ and id_index_ are inverse to each other; nothing is said about counters. */
  ghost predicate Matched(s: State) {
    && (forall ch :: ch in s.watchers ==>
          s.watchers[ch].ch == ch && s.watchers[ch].id in s.idIndex && s.idIndex[s.watchers[ch].id] == ch)
    && (forall id :: id in s.idIndex ==> s.idIndex[id] in s.watchers && s.watchers[s.idIndex[id]].id == id)
  }

  /** The action registers a new channel under an id that is still in use: the 32 bits have wrapped. */
  predicate Collides(s: State, a: Action) {
    (a.DoAdd? || a.DoMod?) && a.events != 0 && a.ch !in s.watchers && AllocId(s.nextId).0 in s.idIndex
  }

  lemma SameIdMatched(s: State, w: Watcher)
    requires Matched(s) && w.ch in s.watchers && w.id == s.watchers[w.ch].id
    ensures Matched(s.Put(w))
  {
    var p := s.Put(w);
    assert forall ch :: ch in p.watchers ==>
      p.watchers[ch].id == s.watchers[ch].id && p.watchers[ch].ch == s.watchers[ch].ch;
  }

  lemma PollAddMatched(s: State, w: Watcher)
    requires Matched(s.Put(w))
    ensures Matched(SubmitPollAdd(s, w))
  {
    var p := s.Put(w);
    assert p.watchers[w.ch] == w;
    var s' := SubmitPollAdd(s, w);
    assert s'.watchers == p.watchers[w.ch := s'.watchers[w.ch]];
    assert s'.watchers[w.ch].id == w.id && s'.watchers[w.ch].ch == w.ch;
  }

  lemma CleanupMatched(s: State, w: Watcher)
    requires Matched(s.Put(w))
    ensures Matched(Cleanup(s, w))
  {
    var p := s.Put(w);
    assert p.watchers[w.ch] == w;
    if w.pendingDelete && !w.armed {
      var s' := Cleanup(s, w);
      forall ch | ch in s'.watchers ensures s'.watchers[ch] == p.watchers[ch] && s'.watchers[ch].id != w.id {}
    }
  }

  lemma ModMatched(s: State, ch: Channel, events: Mask)
    requires Matched(s) && ch in s.watchers
    ensures Matched(ModKnown(s, ch, events))
  {
    if events == 0 {
      DelMatched(s, ch);
    } else {
      var w := s.watchers[ch].(events := events);
      var s1 := SubmitPollRemove(s, w);
      SameIdMatched(s1, w);
      PollAddMatched(s1, w);
    }
  }

  lemma DelMatched(s: State, ch: Channel)
    requires Matched(s)
    ensures Matched(Del(s, ch))
  {
    if ch in s.watchers {
      var w := s.watchers[ch].(events := 0, pendingDelete := true);
      var s1 := SubmitPollRemove(s, w);
      SameIdMatched(s1, w);
      CleanupMatched(s1, w);
    }
  }

  /** A new registration keeps the tables matched exactly when its id is not in use. */
  lemma NewMatchedIff(s: State, ch: Channel, fd: nat, events: Mask)
    requires Matched(s) && ch !in s.watchers && events != 0
    ensures Matched(Add(s, ch, fd, events)) <==> AllocId(s.nextId).0 !in s.idIndex
  {
    var (id, next) := AllocId(s.nextId);
    var m := s.(nextId := next, idIndex := s.idIndex[id := ch]);
    var w := Watcher(ch, fd, id, 0, events, false, false, None);
    var s' := Add(s, ch, fd, events);
    assert s' == SubmitPollAdd(m, w);
    if id in s.idIndex {
      var c := s.idIndex[id];
      assert s'.watchers[c] == s.watchers[c] && s'.idIndex[id] == ch != c;
    } else {
      var p := m.Put(w);
      assert forall c :: c in s.watchers ==> p.watchers[c] == s.watchers[c];
      assert p.watchers[ch] == w;
      PollAddMatched(m, w);
    }
  }

  lemma ProcessMatched(s: State, t: Tag, res: Option<Mask>)
    requires Matched(s)
    ensures Matched(ProcessCqe(s, t, res))
  {
    if t.id in s.idIndex {
      var w := s.watchers[s.idIndex[t.id]];
      var w1 := w.(armed := false);
      SameIdMatched(s, w);
      SameIdMatched(s, w1);
      if t.kind == Poll {
        PollCqeMatched(s, w, t, res);
      } else {
        CleanupMatched(s, w);
        CleanupMatched(s, w1);
      }
    }
  }

  lemma PollCqeMatched(s: State, w: Watcher, t: Tag, res: Option<Mask>)
    requires Matched(s) && w.ch in s.watchers && s.watchers[w.ch] == w
    ensures Matched(HandlePollCqe(s, w, t, res))
  {
    var w1 := w.(armed := false);
    var f := s.(failed := s.failed + {t});
    SameIdMatched(s, w1);
    SameIdMatched(f, w1);
    CleanupMatched(f, w1);
    CleanupMatched(s, w1);
    if res.Some? {
      var d := s.(delivered := s.delivered + [Event(w.ch, PollMaskToEpoll(res.value))]);
      SameIdMatched(d, w1);
      PollAddMatched(d, w1);
    }
  }

  /** Of all actions only such a registration breaks the tables, and each one does. */
  lemma StepMatchedIff(s: State, a: Action)
    requires Matched(s)
    ensures Matched(Apply(s, a)) <==> !Collides(s, a)
  {
    match a
    case DoAdd(ch, fd, events) => RegisterMatchedIff(s, ch, fd, events);
    case DoMod(ch, fd, events) => RegisterMatchedIff(s, ch, fd, events);
    case DoDel(ch) => DelMatched(s, ch);
    case Complete(_) =>
    case Process(t, res) =>
      if s.arrived[t] > 0 {
        var s1 := s.(arrived := s.arrived - multiset{t});
        assert Matched(s1);
        ProcessMatched(s1, t, res);
      }
  }

  lemma RegisterMatchedIff(s: State, ch: Channel, fd: nat, events: Mask)
    requires Matched(s)
    ensures Matched(Add(s, ch, fd, events)) <==> !Collides(s, DoAdd(ch, fd, events))
    ensures Matched(Mod(s, ch, fd, events)) <==> !Collides(s, DoMod(ch, fd, events))
  {
    if ch in s.watchers {
      ModMatched(s, ch, events);
    } else if events != 0 {
      NewMatchedIff(s, ch, fd, events);
    }
  }

  ghost predicate NoCollision(s: State, acts: seq<Action>)
    decreases acts
  {
    acts != [] ==> !Collides(s, acts[0]) && NoCollision(Apply(s, acts[0]), acts[1..])
  }

  lemma {:induction false} RunKeepsMatched(s: State, acts: seq<Action>)
    requires Matched(s) && NoCollision(s, acts)
    ensures Matched(ApplyAll(s, acts))
    decreases acts
  {
    if acts != [] {
      StepMatchedIff(s, acts[0]);
      RunKeepsMatched(Apply(s, acts[0]), acts[1..]);
    }
  }

  /** The two tables stay inverse to each other in every run that never hands out an id still in use. */
  lemma TablesAfterRun(acts: seq<Action>, ch: Channel, id: nat)
    requires NoCollision(Empty, acts)
    ensures var s := ApplyAll(Empty, acts);
      (ch in s.watchers && s.watchers[ch].id == id) <==> (id in s.idIndex && s.idIndex[id] == ch)
  {
    RunKeepsMatched(Empty, acts);
  }

  // ---------------------------------------------------------------- generations beyond 30 bits

  /** The completion of a watcher's own current poll is acted upon exactly while its generation fits
      the 30 bits; from 2^30 on it looks stale. */
  lemma OwnPollRecognisedIff(s: State, w: Watcher, res: Option<Mask>)
    requires w.ch in s.watchers && s.watchers[w.ch] == w && w.armed
    ensures HandlePollCqe(s, w, TagOf(w.id, w.generation, Poll), res) != s <==> w.generation < GEN_MOD
  {}

  /** No completion can match the watcher of ch, and it will stay armed. */
  ghost predicate Deaf(s: State, ch: Channel) {
    ch in s.watchers && s.watchers[ch].armed && s.watchers[ch].generation >= GEN_MOD
  }

  /** From s to s' the watcher of ch has stayed armed, its generation has moved by one at most, and no
      event of ch has been handed up. */
  ghost predicate StaysDeaf(s: State, s': State, ch: Channel) {
    && ch in s.watchers && ch in s'.watchers && s'.watchers[ch].armed
    && s.watchers[ch].generation <= s'.watchers[ch].generation <= s.watchers[ch].generation + 1
    && SilentFor(s.delivered, s'.delivered, ch)
  }

  lemma DeafPollAdd(s: State, w: Watcher, ch: Channel)
    requires Deaf(s, ch)
    requires w.ch == ch ==> w.armed && w.generation == s.watchers[ch].generation && w.generation + 1 < ID_MOD
    ensures StaysDeaf(s, SubmitPollAdd(s, w), ch)
  {}

  lemma DeafMod(s: State, c: Channel, fd: nat, events: Mask, ch: Channel)
    requires Keyed(s) && Deaf(s, ch) && s.watchers[ch].generation + 1 < ID_MOD
    ensures StaysDeaf(s, Mod(s, c, fd, events), ch) && StaysDeaf(s, Add(s, c, fd, events), ch)
  {
    DeafDel(s, c, ch);
    if c in s.watchers {
      var w := s.watchers[c].(events := events);
      DeafPollAdd(SubmitPollRemove(s, w), w, ch);
    } else {
      var (id, next) := AllocId(s.nextId);
      var m := s.(nextId := next, idIndex := s.idIndex[id := c]);
      DeafPollAdd(m, Watcher(c, fd, id, 0, events, false, false, None), ch);
    }
  }

  /** Deleting marks the watcher, and since it is armed it stays. */
  lemma DeafDel(s: State, c: Channel, ch: Channel)
    requires Keyed(s) && Deaf(s, ch)
    ensures StaysDeaf(s, Del(s, c), ch)
  {}

  lemma DeafProcess(s: State, t: Tag, res: Option<Mask>, ch: Channel)
    requires Keyed(s) && Deaf(s, ch) && t.generation < GEN_MOD
    ensures StaysDeaf(s, ProcessCqe(s, t, res), ch)
  {
    if t.id in s.idIndex && s.idIndex[t.id] in s.watchers {
      var w := s.watchers[s.idIndex[t.id]];
      assert w.ch == s.idIndex[t.id];
      if w.ch != ch {
        DeafOtherCqe(s, w, t, res, ch);
      }
    }
  }

  lemma DeafOtherCqe(s: State, w: Watcher, t: Tag, res: Option<Mask>, ch: Channel)
    requires Deaf(s, ch) && w.ch != ch
    ensures StaysDeaf(s, HandlePollCqe(s, w, t, res), ch) && StaysDeaf(s, HandleRemoveCqe(s, w, t), ch)
  {
    if res.Some? {
      var s1 := s.(delivered := s.delivered + [Event(w.ch, PollMaskToEpoll(res.value))]);
      DeafPollAdd(s1, w.(armed := false), ch);
    }
  }

  /** One action later the watcher is still deaf, unless its generation wraps around 32 bits. */
  lemma DeafStep(s: State, a: Action, ch: Channel)
    requires Loose(s) && Deaf(s, ch) && s.watchers[ch].generation + 1 < ID_MOD
    ensures StaysDeaf(s, Apply(s, a), ch)
  {
    match a
    case DoAdd(c, fd, events) => DeafMod(s, c, fd, events, ch);
    case DoMod(c, fd, events) => DeafMod(s, c, fd, events, ch);
    case DoDel(c) => DeafDel(s, c, ch);
    case Complete(t) =>
    case Process(t, res) =>
      if s.arrived[t] > 0 {
        assert s.Outstanding(t) > 0;
        DeafProcess(s.(arrived := s.arrived - multiset{t}), t, res, ch);
      }
  }

  /** A watcher whose generation has reached 2^30 never hands up an event again, whatever is done to it
      and to the others, until 2^32 wraps around: it can be changed, deleted and added again, and the
      channel stays silent. */
  lemma {:induction false} DeafIsSilent(s: State, acts: seq<Action>, ch: Channel)
    requires Loose(s) && Deaf(s, ch) && s.watchers[ch].generation + |acts| < ID_MOD
    ensures SilentFor(s.delivered, ApplyAll(s, acts).delivered, ch)
    decreases acts
  {
    if acts != [] {
      DeafStep(s, acts[0], ch);
      StepIsLoose(s, acts[0]);
      DeafIsSilent(Apply(s, acts[0]), acts[1..], ch);
      SilentTrans(s.delivered, Apply(s, acts[0]).delivered, ApplyAll(s, acts).delivered, ch);
    }
  }

  function Mods(n: nat, ch: Channel, fd: nat, ev: Mask): (acts: seq<Action>)
    ensures |acts| == n
  {
    if n == 0 then [] else [DoMod(ch, fd, ev)] + Mods(n - 1, ch, fd, ev)
  }

  /** ch is registered, armed and not being deleted, with generation g. */
  ghost predicate AtGeneration(s: State, ch: Channel, g: nat) {
    && Loose(s)
    && ch in s.watchers && s.watchers[ch].armed && !s.watchers[ch].pendingDelete && s.watchers[ch].generation == g
  }

  lemma OneModCounts(s: State, ch: Channel, fd: nat, ev: Mask, g: nat)
    requires AtGeneration(s, ch, g) && ev != 0 && g + 1 < ID_MOD
    ensures var s' := Mod(s, ch, fd, ev);
      && ch in s'.watchers && s'.watchers[ch].armed && !s'.watchers[ch].pendingDelete
      && s'.watchers[ch].generation == g + 1
  {
    var w := s.watchers[ch].(events := ev);
    assert Mod(s, ch, fd, ev) == SubmitPollAdd(SubmitPollRemove(s, w), w);
  }

  lemma {:induction false} ModsCount(s: State, n: nat, ch: Channel, fd: nat, ev: Mask, g: nat)
    requires AtGeneration(s, ch, g) && ev != 0 && g + n < ID_MOD
    ensures AtGeneration(ApplyAll(s, Mods(n, ch, fd, ev)), ch, g + n)
    decreases n
  {
    if n > 0 {
      var a := DoMod(ch, fd, ev);
      assert Mods(n, ch, fd, ev)[1..] == Mods(n - 1, ch, fd, ev);
      StepIsLoose(s, a);
      OneModCounts(s, ch, fd, ev, g);
      ModsCount(Apply(s, a), n - 1, ch, fd, ev, g + 1);
    }
  }

  lemma {:induction false} ApplyAllSplits(s: State, a: seq<Action>, b: seq<Action>)
    ensures ApplyAll(s, a + b) == ApplyAll(ApplyAll(s, a), b)
    decreases a
  {
    if a == [] {
      assert [] + b == b;
    } else {
      assert (a + b)[1..] == a[1..] + b;
      ApplyAllSplits(Apply(s, a[0]), a[1..], b);
    }
  }

  /** From the empty poller: one Add and n changes bring the watcher to generation n + 1; from 2^30 - 1
      changes on, nothing that happens brings the channel another event. */
  lemma ManyChangesSilence(ch: Channel, fd: nat, ev: Mask, n: nat, acts: seq<Action>)
    requires ev != 0 && n + 1 >= GEN_MOD && n + 1 + |acts| < ID_MOD
    ensures var s := ApplyAll(Empty, [DoAdd(ch, fd, ev)] + Mods(n, ch, fd, ev));
      && AtGeneration(s, ch, n + 1)
      && SilentFor(s.delivered, ApplyAll(s, acts).delivered, ch)
  {
    var add := [DoAdd(ch, fd, ev)];
    var s1 := Apply(Empty, add[0]);
    assert add[1..] == [];
    assert ApplyAll(Empty, add) == ApplyAll(s1, []) == s1;
    StepIsLoose(Empty, add[0]);
    assert s1.watchers[ch] == Watcher(ch, fd, 1, 1, ev, false, true, Some(Tag(1, 1, Poll)));
    ApplyAllSplits(Empty, add, Mods(n, ch, fd, ev));
    ModsCount(s1, n, ch, fd, ev, 1);
    DeafIsSilent(ApplyAll(s1, Mods(n, ch, fd, ev)), acts, ch);
  }
}

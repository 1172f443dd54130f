/** The inverted subscription index of src/websocket_server.cc and of the traffic server: for every
    id the list of subscribed clients, beside the ids each client's session records. */
module SubscriptionIndex {

  type Id = nat
  type Client = nat

  /** subs is subs_, recorded the session's id list; alive are the clients whose weak reference still
      locks, connected those not closed yet. */
  datatype State = State(
    subs: map<Id, seq<Client>>,
    recorded: map<Client, seq<Id>>,
    alive: set<Client>,
    connected: set<Client>
  ) {
    /** How often client c stands in the list of id. */
    function Listed(id: Id, c: Client): nat {
      if id in subs then multiset(subs[id])[c] else 0
    }

    function Recorded(c: Client): seq<Id> {
      if c in recorded then recorded[c] else []
    }
  }

  function Filter(v: seq<Client>, keep: set<Client>): seq<Client> {
    if v == [] then []
    else Filter(v[..|v| - 1], keep) + (if v[|v| - 1] in keep then [v[|v| - 1]] else [])
  }

  lemma {:induction false} FilterCounts(v: seq<Client>, keep: set<Client>, c: Client)
    ensures multiset(Filter(v, keep))[c] == if c in keep then multiset(v)[c] else 0
  {
    if v != [] {
      FilterCounts(v[..|v| - 1], keep, c);
      assert v == v[..|v| - 1] + [v[|v| - 1]];
    }
  }

  /** Keep only some clients in the list of id; an empty list is erased. */
  function Prune(subs: map<Id, seq<Client>>, id: Id, keep: set<Client>): map<Id, seq<Client>> {
    if id !in subs then subs
    else if Filter(subs[id], keep) == [] then subs - {id}
    else subs[id := Filter(subs[id], keep)]
  }

  /** The first half of an update: out of the lists of all recorded ids. */
  function Unsubscribe(subs: map<Id, seq<Client>>, ids: seq<Id>, keep: set<Client>): map<Id, seq<Client>> {
    if ids == [] then subs
    else Prune(Unsubscribe(subs, ids[..|ids| - 1], keep), ids[|ids| - 1], keep)
  }

  /** The second half: to the back of the list of each new id, as often as it is named. */
  function Subscribe(subs: map<Id, seq<Client>>, ids: seq<Id>, c: Client): map<Id, seq<Client>> {
    if ids == [] then subs
    else
      var m := Subscribe(subs, ids[..|ids| - 1], c);
      var id := ids[|ids| - 1];
      m[id := (if id in m then m[id] else []) + [c]]
  }

  function Update(s: State, c: Client, ids: seq<Id>): State {
    var rest := Unsubscribe(s.subs, s.Recorded(c), s.alive - {c});
    s.(subs := Subscribe(rest, ids, c), recorded := s.recorded[c := ids])
  }

  function RemoveConnection(s: State, c: Client): State {
    s.(subs := Unsubscribe(s.subs, s.Recorded(c), s.alive - {c}), recorded := s.recorded[c := []])
  }

  /** PublishTo and ForEachSubscriber: prune, and return whom the message goes to. */
  function Publish(s: State, id: Id): (State, seq<Client>) {
    var keep := s.alive * s.connected;
    (s.(subs := Prune(s.subs, id, keep)), if id in s.subs then Filter(s.subs[id], keep) else [])
  }

  // ---------------------------------------------------------------- normal form

  ghost predicate Increasing(l: seq<Id>) {
    forall i, j :: 0 <= i < j < |l| ==> l[i] < l[j]
  }

  function Insert(l: seq<Id>, x: Id): seq<Id> {
    if l == [] then [x]
    else if x < l[0] then [x] + l
    else if x == l[0] then l
    else [l[0]] + Insert(l[1..], x)
  }

  /** What removing zeros, sorting and removing repetitions leaves. */
  function Normalize(ids: seq<Id>): seq<Id> {
    if ids == [] then []
    else if ids[0] == 0 then Normalize(ids[1..])
    else Insert(Normalize(ids[1..]), ids[0])
  }

  /** Increasing, seen from the front. */
  lemma IncreasingCons(x: Id, l: seq<Id>)
    ensures Increasing([x] + l) <==> Increasing(l) && (l != [] ==> x < l[0])
  {
    var m := [x] + l;
    if Increasing(m) {
      forall i, j | 0 <= i < j < |l| ensures l[i] < l[j] {
        assert m[i + 1] < m[j + 1];
      }
      assert l != [] ==> m[0] < m[1];
    }
    if Increasing(l) && (l != [] ==> x < l[0]) {
      forall i, j | 0 <= i < j < |m| ensures m[i] < m[j] {
        assert m[j] == l[j - 1];
        assert i > 0 ==> m[i] == l[i - 1];
      }
    }
  }

  lemma ConsMembers(x: Id, l: seq<Id>, y: Id)
    ensures y in [x] + l <==> y == x || y in l
  {}

  lemma {:induction false} InsertIncreases(l: seq<Id>, x: Id)
    requires Increasing(l)
    ensures Increasing(Insert(l, x))
    ensures Insert(l, x)[0] == if l == [] || x < l[0] then x else l[0]
  {
    if l == [] {
    } else if x < l[0] {
      IncreasingCons(x, l);
    } else if x > l[0] {
      var h, t := l[0], l[1..];
      assert l == [h] + t;
      IncreasingCons(h, t);
      InsertIncreases(t, x);
      IncreasingCons(h, Insert(t, x));
    }
  }

  lemma {:induction false} InsertMembers(l: seq<Id>, x: Id, y: Id)
    ensures y in Insert(l, x) <==> y in l || y == x
  {
    if l != [] {
      assert l == [l[0]] + l[1..];
      if x < l[0] {
        ConsMembers(x, l, y);
      } else if x > l[0] {
        InsertMembers(l[1..], x, y);
        ConsMembers(l[0], l[1..], y);
        ConsMembers(l[0], Insert(l[1..], x), y);
      }
    }
  }

  /** Normalize is the one increasing list of the ids named, zero left out. */
  lemma {:induction false} NormalizeFacts(ids: seq<Id>)
    ensures Increasing(Normalize(ids))
    ensures forall y :: y in Normalize(ids) <==> y in ids && y != 0
  {
    if ids != [] {
      var rest := Normalize(ids[1..]);
      NormalizeFacts(ids[1..]);
      if ids[0] != 0 {
        InsertIncreases(rest, ids[0]);
      }
      forall y ensures y in Normalize(ids) <==> y in ids && y != 0 {
        assert ids == [ids[0]] + ids[1..];
        ConsMembers(ids[0], ids[1..], y);
        InsertMembers(rest, ids[0], y);
      }
    }
  }

  lemma {:induction false} IncreasingCounts(l: seq<Id>, x: Id)
    requires Increasing(l)
    ensures multiset(l)[x] == if x in l then 1 else 0
  {
    if l != [] {
      IncreasingCounts(l[1..], x);
      assert l == [l[0]] + l[1..];
      assert Increasing(l[1..]);
    }
  }

  // ---------------------------------------------------------------- invariant

  /** A connected client stands in the list of an id exactly as often as its session records the id;
      a client that has closed but still exists, at most as often. No list is empty. */
  ghost predicate Inv(s: State) {
    && s.connected <= s.alive
    && (forall id :: id in s.subs ==> s.subs[id] != [])
    && (forall c, id :: c in s.connected ==> s.Listed(id, c) == multiset(s.Recorded(c))[id])
    && (forall c, id :: c in s.alive ==> s.Listed(id, c) <= multiset(s.Recorded(c))[id])
  }

  function CountIn(subs: map<Id, seq<Client>>, id: Id, c: Client): nat {
    if id in subs then multiset(subs[id])[c] else 0
  }

  ghost predicate NoEmpty(subs: map<Id, seq<Client>>) {
    forall id :: id in subs ==> subs[id] != []
  }

  lemma PruneCounts(subs: map<Id, seq<Client>>, id: Id, keep: set<Client>, x: Id, c: Client)
    requires NoEmpty(subs)
    ensures NoEmpty(Prune(subs, id, keep))
    ensures CountIn(Prune(subs, id, keep), x, c) == if x == id && c !in keep then 0 else CountIn(subs, x, c)
  {
    if id in subs {
      FilterCounts(subs[id], keep, c);
    }
  }

  lemma {:induction false} UnsubscribeCounts(subs: map<Id, seq<Client>>, ids: seq<Id>, keep: set<Client>,
                                             x: Id, c: Client)
    requires NoEmpty(subs)
    ensures NoEmpty(Unsubscribe(subs, ids, keep))
    ensures CountIn(Unsubscribe(subs, ids, keep), x, c) == if x in ids && c !in keep then 0 else CountIn(subs, x, c)
  {
    if ids != [] {
      UnsubscribeCounts(subs, ids[..|ids| - 1], keep, x, c);
      PruneCounts(Unsubscribe(subs, ids[..|ids| - 1], keep), ids[|ids| - 1], keep, x, c);
      assert ids == ids[..|ids| - 1] + [ids[|ids| - 1]];
    }
  }

  lemma {:induction false} SubscribeCounts(subs: map<Id, seq<Client>>, ids: seq<Id>, d: Client, x: Id, c: Client)
    requires NoEmpty(subs)
    ensures NoEmpty(Subscribe(subs, ids, d))
    ensures CountIn(Subscribe(subs, ids, d), x, c) == CountIn(subs, x, c) + (if c == d then multiset(ids)[x] else 0)
  {
    if ids != [] {
      SubscribeCounts(subs, ids[..|ids| - 1], d, x, c);
      assert ids == ids[..|ids| - 1] + [ids[|ids| - 1]];
    }
  }

  lemma UpdateCounts(s: State, d: Client, ids: seq<Id>, id: Id, c: Client)
    requires Inv(s) && d in s.alive && c in s.alive
    ensures NoEmpty(Update(s, d, ids).subs)
    ensures Update(s, d, ids).Listed(id, c) == if c == d then multiset(ids)[id] else s.Listed(id, c)
  {
    var keep := s.alive - {d};
    UnsubscribeCounts(s.subs, s.Recorded(d), keep, id, c);
    SubscribeCounts(Unsubscribe(s.subs, s.Recorded(d), keep), ids, d, id, c);
    if c == d && id !in s.Recorded(d) {
      assert s.Listed(id, d) <= multiset(s.Recorded(d))[id] == 0;
    }
  }

  /** An update keeps the index in agreement, and afterwards the client is listed for exactly the ids
      it named, as often as it named them. */
  lemma UpdateKeepsInv(s: State, d: Client, ids: seq<Id>)
    requires Inv(s) && d in s.alive
    ensures Inv(Update(s, d, ids))
    ensures forall id :: Update(s, d, ids).Listed(id, d) == multiset(ids)[id]
  {
    var s' := Update(s, d, ids);
    forall c, id | c in s'.alive
      ensures s'.Listed(id, c) <= multiset(s'.Recorded(c))[id]
      ensures c in s'.connected || c == d ==> s'.Listed(id, c) == multiset(s'.Recorded(c))[id]
    {
      UpdateAgrees(s, d, ids, id, c);
    }
    assert s'.Recorded(d) == ids;
    UpdateCounts(s, d, ids, 0, d);
  }

  lemma UpdateAgrees(s: State, d: Client, ids: seq<Id>, id: Id, c: Client)
    requires Inv(s) && d in s.alive && c in s.alive
    ensures var s' := Update(s, d, ids);
      && s'.Listed(id, c) <= multiset(s'.Recorded(c))[id]
      && (c in s'.connected || c == d ==> s'.Listed(id, c) == multiset(s'.Recorded(c))[id])
  {
    UpdateCounts(s, d, ids, id, c);
    assert c != d ==> Update(s, d, ids).Recorded(c) == s.Recorded(c);
  }

  /** Every client but d is recorded as before, and every other existing one listed as before. */
  ghost predicate OthersKept(s: State, s': State, d: Client) {
    && s'.alive == s.alive && s'.connected == s.connected
    && (forall c :: c != d ==> s'.Recorded(c) == s.Recorded(c))
    && (forall c, id :: c in s.alive && c != d ==> s'.Listed(id, c) == s.Listed(id, c))
  }

  lemma UpdateKeepsOthers(s: State, d: Client, ids: seq<Id>)
    requires Inv(s) && d in s.alive
    ensures OthersKept(s, Update(s, d, ids), d) && Update(s, d, ids).Recorded(d) == ids
  {
    forall c, id | c in s.alive && c != d ensures Update(s, d, ids).Listed(id, c) == s.Listed(id, c) {
      UpdateCounts(s, d, ids, id, c);
    }
  }

  /** After its removal a client is in no list, even if it closed long ago and was pruned in part, and is
      recorded for nothing; all others keep their subscriptions. */
  lemma RemoveKeepsInv(s: State, d: Client)
    requires Inv(s) && d in s.alive
    ensures Inv(RemoveConnection(s, d))
    ensures forall id :: RemoveConnection(s, d).Listed(id, d) == 0
    ensures OthersKept(s, RemoveConnection(s, d), d) && RemoveConnection(s, d).Recorded(d) == []
  {
    UpdateKeepsInv(s, d, []);
    UpdateKeepsOthers(s, d, []);
    assert Update(s, d, []) == RemoveConnection(s, d);
  }

  // ---------------------------------------------------------------- order

  /** The list of id, which is empty when there is none. */
  function ListOf(subs: map<Id, seq<Client>>, id: Id): seq<Client> {
    if id in subs then subs[id] else []
  }

  function Times(c: Client, n: nat): seq<Client> {
    seq(n, i => c)
  }

  /** Erasing from a list is erasing from its parts: what stays keeps its order. */
  lemma {:induction false} FilterSplits(a: seq<Client>, b: seq<Client>, keep: set<Client>)
    ensures Filter(a + b, keep) == Filter(a, keep) + Filter(b, keep)
    decreases |b|
  {
    if b == [] {
      assert a + b == a;
    } else {
      assert (a + b)[..|a + b| - 1] == a + b[..|b| - 1];
      FilterSplits(a, b[..|b| - 1], keep);
    }
  }

  lemma {:induction false} FilterTwice(v: seq<Client>, keep: set<Client>)
    ensures Filter(Filter(v, keep), keep) == Filter(v, keep)
  {
    if v != [] {
      var init, c := v[..|v| - 1], v[|v| - 1];
      FilterTwice(init, keep);
      FilterSplits(Filter(init, keep), if c in keep then [c] else [], keep);
      assert [c][..0] == [];
    }
  }

  lemma {:induction false} UnsubscribeLists(subs: map<Id, seq<Client>>, ids: seq<Id>, keep: set<Client>, id: Id)
    ensures ListOf(Unsubscribe(subs, ids, keep), id)
         == if id in ids then Filter(ListOf(subs, id), keep) else ListOf(subs, id)
  {
    if ids != [] {
      var init := ids[..|ids| - 1];
      UnsubscribeLists(subs, init, keep, id);
      FilterTwice(ListOf(subs, id), keep);
      assert ids == init + [ids[|ids| - 1]];
    }
  }

  lemma SubscribeOne(subs: map<Id, seq<Client>>, id: Id, c: Client, x: Id, was: seq<Client>, n: nat)
    requires ListOf(subs, x) == was + Times(c, n)
    ensures ListOf(subs[id := ListOf(subs, id) + [c]], x) == was + Times(c, if x == id then n + 1 else n)
  {
    assert was + Times(c, n) + [c] == was + Times(c, n + 1);
  }

  lemma {:induction false} SubscribeLists(subs: map<Id, seq<Client>>, ids: seq<Id>, c: Client, id: Id)
    ensures ListOf(Subscribe(subs, ids, c), id) == ListOf(subs, id) + Times(c, multiset(ids)[id])
  {
    if ids == [] {
      assert ListOf(subs, id) + Times(c, 0) == ListOf(subs, id);
    } else {
      var init, last := ids[..|ids| - 1], ids[|ids| - 1];
      SubscribeLists(subs, init, c, id);
      assert ids == init + [last];
      var n: nat := multiset(ids)[id];
      SubscribeOne(Subscribe(subs, init, c), last, c, id, ListOf(subs, id), if id == last then n - 1 else n);
    }
  }

  /** An update takes the client, and whatever no longer exists, out of the lists it was recorded for
      without changing the order of the rest, and puts it at the back of the lists it names. */
  lemma UpdateLists(s: State, d: Client, ids: seq<Id>, id: Id)
    ensures var was := ListOf(s.subs, id);
      ListOf(Update(s, d, ids).subs, id)
      == (if id in s.Recorded(d) then Filter(was, s.alive - {d}) else was) + Times(d, multiset(ids)[id])
  {
    var rest := Unsubscribe(s.subs, s.Recorded(d), s.alive - {d});
    UnsubscribeLists(s.subs, s.Recorded(d), s.alive - {d}, id);
    SubscribeLists(rest, ids, d, id);
  }

  /** What a publication does to one client's place in one list. */
  lemma PublishCounts(s: State, id: Id, x: Id, c: Client)
    requires NoEmpty(s.subs)
    ensures Publish(s, id).0.Listed(x, c) == if x == id && c !in s.alive * s.connected then 0 else s.Listed(x, c)
    ensures NoEmpty(Publish(s, id).0.subs)
  {
    PruneCounts(s.subs, id, s.alive * s.connected, x, c);
  }

  /** Whom a publication reaches, and how often. */
  lemma TargetCounts(s: State, id: Id, c: Client)
    requires Inv(s)
    ensures multiset(Publish(s, id).1)[c] == if c in s.connected then multiset(s.Recorded(c))[id] else 0
  {
    if id in s.subs {
      FilterCounts(s.subs[id], s.alive * s.connected, c);
    }
    if c in s.connected {
      assert c in s.alive;
      assert s.Listed(id, c) == multiset(s.Recorded(c))[id];
    }
  }

  lemma PublishKeepsInv(s: State, id: Id)
    requires Inv(s)
    ensures Inv(Publish(s, id).0)
    ensures forall c ::
      multiset(Publish(s, id).1)[c] == if c in s.connected then multiset(s.Recorded(c))[id] else 0
  {
    var s' := Publish(s, id).0;
    forall c, x | c in s.alive
      ensures s'.Listed(x, c) <= multiset(s'.Recorded(c))[x]
      ensures c in s.connected ==> s'.Listed(x, c) == multiset(s'.Recorded(c))[x]
    {
      assert s.Listed(x, c) <= multiset(s.Recorded(c))[x];
      PublishCounts(s, id, x, c);
      assert s'.Recorded(c) == s.Recorded(c);
    }
    PublishCounts(s, id, id, 0);
    forall c
      ensures multiset(Publish(s, id).1)[c] == if c in s.connected then multiset(s.Recorded(c))[id] else 0
    {
      TargetCounts(s, id, c);
    }
  }

  /** A publication drops the closed and vanished from one list; it sends to those that stay, in the
      order of the list, and touches nothing else. */
  lemma PublishLists(s: State, id: Id, x: Id)
    requires Inv(s)
    ensures Publish(s, id).0 == s.(subs := Publish(s, id).0.subs)
    ensures Publish(s, id).1 == Filter(ListOf(s.subs, id), s.connected)
    ensures ListOf(Publish(s, id).0.subs, x) == if x == id then Publish(s, id).1 else ListOf(s.subs, x)
  {
    assert s.alive * s.connected == s.connected;
  }

  // ---------------------------------------------------------------- runs

  datatype Action =
    | DoUpdate(c: Client, ids: seq<Id>)
    | DoRemove(c: Client)
    | DoPublish(id: Id)
    | Connect(c: Client)
    | Close(c: Client)      // the connection is no longer connected
    | Destroy(c: Client)    // nothing holds it any more

  function Apply(s: State, a: Action): State {
    match a
    case DoUpdate(c, ids) => if c in s.alive then Update(s, c, ids) else s
    case DoRemove(c) => if c in s.alive then RemoveConnection(s, c) else s
    case DoPublish(id) => Publish(s, id).0
    case Connect(c) =>
      // A new session records nothing; a client id is not used twice.
      if c in s.alive || c in s.recorded || (exists id :: id in s.subs && c in s.subs[id]) then s
      else s.(alive := s.alive + {c}, connected := s.connected + {c})
    case Close(c) => s.(connected := s.connected - {c})
    case Destroy(c) => if c in s.connected then s else s.(alive := s.alive - {c})
  }

  function ApplyAll(s: State, acts: seq<Action>): State
    decreases acts
  {
    if acts == [] then s else ApplyAll(Apply(s, acts[0]), acts[1..])
  }

  lemma ConnectKeepsInv(s: State, c: Client)
    requires Inv(s)
    ensures Inv(Apply(s, Connect(c)))
  {
    var s' := Apply(s, Connect(c));
    if s' != s {
      forall d, id | d in s'.alive
        ensures s'.Listed(id, d) == s.Listed(id, d) && s'.Recorded(d) == s.Recorded(d)
        ensures d == c ==> s.Listed(id, d) == 0 && multiset(s.Recorded(d))[id] == 0
      {}
    }
  }

  lemma FewerClientsKeepInv(s: State, s': State)
    requires Inv(s) && s' == s.(alive := s'.alive, connected := s'.connected)
    requires s'.connected <= s'.alive <= s.alive && s'.connected <= s.connected
    ensures Inv(s')
  {
    forall c, id | c in s'.alive
      ensures s'.Listed(id, c) == s.Listed(id, c) && s'.Recorded(c) == s.Recorded(c)
    {}
  }

  lemma StepKeepsInv(s: State, a: Action)
    requires Inv(s)
    ensures Inv(Apply(s, a))
  {
    match a
    case DoUpdate(c, ids) =>
      if c in s.alive {
        UpdateKeepsInv(s, c, ids);
      }
    case DoRemove(c) =>
      if c in s.alive {
        RemoveKeepsInv(s, c);
      }
    case DoPublish(id) => PublishKeepsInv(s, id);
    case Connect(c) =>
      ConnectKeepsInv(s, c);
    case Close(c) => FewerClientsKeepInv(s, Apply(s, a));
    case Destroy(c) => FewerClientsKeepInv(s, Apply(s, a));
  }

  /** After any mix of updates, removals, publications, connections and closings the index agrees with
      the sessions. */
  lemma {:induction false} IndexAgrees(s: State, acts: seq<Action>)
    requires Inv(s)
    ensures Inv(ApplyAll(s, acts))
    decreases acts
  {
    if acts != [] {
      StepKeepsInv(s, acts[0]);
      IndexAgrees(Apply(s, acts[0]), acts[1..]);
    }
  }

  /** What a client has asked for last: the ids of its last update, none once it is removed. */
  function AskedLast(acts: seq<Action>, c: Client, before: seq<Id>): seq<Id>
    decreases acts
  {
    if acts == [] then before
    else AskedLast(acts[1..], c,
      match acts[0]
      case DoUpdate(d, ids) => if d == c then ids else before
      case DoRemove(d) => if d == c then [] else before
      case _ => before)
  }

  lemma StepRecords(s: State, a: Action, c: Client)
    requires Inv(s) && c in s.alive && a != Destroy(c)
    ensures c in Apply(s, a).alive
    ensures Apply(s, a).Recorded(c) == AskedLast([a], c, s.Recorded(c))
    ensures c in s.connected && a != Close(c) ==> c in Apply(s, a).connected
  {
    match a
    case DoUpdate(d, ids) =>
      if d in s.alive {
        UpdateKeepsOthers(s, d, ids);
      }
    case DoRemove(d) =>
      if d in s.alive {
        RemoveKeepsInv(s, d);
      }
    case _ =>
  }

  lemma AskedStep(acts: seq<Action>, c: Client, before: seq<Id>)
    requires acts != []
    ensures AskedLast(acts, c, before) == AskedLast(acts[1..], c, AskedLast([acts[0]], c, before))
  {
    assert [acts[0]][1..] == [];
  }

  /** Through any run in which a client stays, a publication reaches it as often as it named the id in
      its own last update, whatever the other clients do. */
  lemma {:induction false} PublicationFollowsRequests(s: State, acts: seq<Action>, c: Client, id: Id)
    requires Inv(s) && c in s.connected && forall a :: a in acts ==> a != Destroy(c) && a != Close(c)
    ensures multiset(Publish(ApplyAll(s, acts), id).1)[c] == multiset(AskedLast(acts, c, s.Recorded(c)))[id]
    decreases acts
  {
    if acts == [] {
      PublishKeepsInv(s, id);
    } else {
      assert acts[0] in acts && forall a :: a in acts[1..] ==> a in acts;
      StepKeepsInv(s, acts[0]);
      StepRecords(s, acts[0], c);
      AskedStep(acts, c, s.Recorded(c));
      PublicationFollowsRequests(Apply(s, acts[0]), acts[1..], c, id);
    }
  }

  /** With the normalised lists of the WebSocket server, a publication sends exactly one frame to each
      connected client that asked for the id, and none to anyone else. */
  lemma OneFramePerSubscriber(s: State, id: Id, c: Client)
    requires Inv(s) && forall d :: d in s.connected ==> Increasing(s.Recorded(d))
    ensures multiset(Publish(s, id).1)[c] == if c in s.connected && id in s.Recorded(c) then 1 else 0
  {
    PublishKeepsInv(s, id);
    if c in s.connected {
      IncreasingCounts(s.Recorded(c), id);
    }
  }
}

/** The same index as code: the server's maps updated in place, one list at a time. */
module SubscriptionCode {
  import S = SubscriptionIndex

  class SubscriptionManager {
    var subs: map<S.Id, seq<S.Client>>
    var recorded: map<S.Client, seq<S.Id>>
    var alive: set<S.Client>
    var connected: set<S.Client>

    ghost function Abs(): S.State
      reads this
    {
      S.State(subs, recorded, alive, connected)
    }

    constructor ()
      ensures Abs() == S.State(map[], map[], {}, {}) && S.Inv(Abs())
    {
      subs, recorded, alive, connected := map[], map[], {}, {};
    }

    /** erase(remove_if(...)) on one list. */
    method Kept(v: seq<S.Client>, conn: S.Client) returns (r: seq<S.Client>)
      ensures r == S.Filter(v, alive - {conn})
    {
      r := [];
      for i := 0 to |v|
        invariant r == S.Filter(v[..i], alive - {conn})
      {
        assert v[..i + 1][..i] == v[..i];
        if v[i] in alive && v[i] != conn {
          r := r + [v[i]];
        }
      }
      assert v[..|v|] == v;
    }

    method DropFrom(ids: seq<S.Id>, conn: S.Client)
      modifies `subs
      ensures subs == S.Unsubscribe(old(subs), ids, alive - {conn})
    {
      for i := 0 to |ids|
        invariant subs == S.Unsubscribe(old(subs), ids[..i], alive - {conn})
      {
        assert ids[..i + 1][..i] == ids[..i];
        if ids[i] in subs {
          var vec := Kept(subs[ids[i]], conn);
          if vec == [] {
            subs := subs - {ids[i]};
          } else {
            subs := subs[ids[i] := vec];
          }
        }
      }
      assert ids[..|ids|] == ids;
    }

    method AddTo(ids: seq<S.Id>, conn: S.Client)
      modifies `subs
      ensures subs == S.Subscribe(old(subs), ids, conn)
    {
      for i := 0 to |ids|
        invariant subs == S.Subscribe(old(subs), ids[..i], conn)
      {
        assert ids[..i + 1][..i] == ids[..i];
        var vec := if ids[i] in subs then subs[ids[i]] else [];
        subs := subs[ids[i] := vec + [conn]];
      }
      assert ids[..|ids|] == ids;
    }

    /** The traffic server records the ids as they are given. */
    method UpdateSubscriptions(conn: S.Client, newIds: seq<S.Id>)
      requires S.Inv(Abs()) && conn in alive
      modifies this
      ensures Abs() == S.Update(old(Abs()), conn, newIds) && S.Inv(Abs())
      ensures S.OthersKept(old(Abs()), Abs(), conn) && recorded == old(recorded)[conn := newIds]
    {
      S.UpdateKeepsInv(Abs(), conn, newIds);
      S.UpdateKeepsOthers(Abs(), conn, newIds);
      DropFrom(if conn in recorded then recorded[conn] else [], conn);
      recorded := recorded[conn := newIds];
      AddTo(newIds, conn);
    }

    /** The WebSocket server records them without zeros, sorted, once each. */
    method UpdateNormalized(conn: S.Client, newIds: seq<S.Id>)
      requires S.Inv(Abs()) && conn in alive
      modifies this
      ensures Abs() == S.Update(old(Abs()), conn, S.Normalize(newIds)) && S.Inv(Abs())
      ensures S.Increasing(recorded[conn]) && forall id :: id in recorded[conn] <==> id in newIds && id != 0
    {
      S.NormalizeFacts(newIds);
      UpdateSubscriptions(conn, S.Normalize(newIds));
    }

    method RemoveConnection(conn: S.Client)
      requires S.Inv(Abs()) && conn in alive
      modifies this
      ensures Abs() == S.RemoveConnection(old(Abs()), conn) && S.Inv(Abs())
      ensures forall id :: id in subs ==> conn !in subs[id]
      ensures S.OthersKept(old(Abs()), Abs(), conn) && Abs().Recorded(conn) == []
    {
      S.RemoveKeepsInv(Abs(), conn);
      DropFrom(if conn in recorded then recorded[conn] else [], conn);
      recorded := recorded[conn := []];
      forall id | id in subs ensures conn !in subs[id] {
        assert Abs().Listed(id, conn) == 0;
      }
    }

    /** The clients a message for id goes to; entries of closed or vanished clients are erased. */
    method PublishTo(id: S.Id) returns (targets: seq<S.Client>)
      requires S.Inv(Abs())
      modifies this
      ensures (Abs(), targets) == S.Publish(old(Abs()), id) && S.Inv(Abs())
      ensures forall c :: multiset(targets)[c] ==
                if c in connected then multiset(old(Abs()).Recorded(c))[id] else 0
      ensures recorded == old(recorded) && alive == old(alive) && connected == old(connected)
    {
      S.PublishKeepsInv(Abs(), id);
      targets := [];
      if id !in subs {
        return;
      }
      var v := subs[id];
      for i := 0 to |v|
        invariant targets == S.Filter(v[..i], alive * connected)
      {
        assert v[..i + 1][..i] == v[..i];
        if v[i] in alive && v[i] in connected {
          targets := targets + [v[i]];
        }
      }
      assert v[..|v|] == v;
      if targets == [] {
        subs := subs - {id};
      } else {
        subs := subs[id := targets];
      }
    }
  }
}

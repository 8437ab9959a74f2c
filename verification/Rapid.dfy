// The RAPID application: periodic messages under unique ids, a cache of messages with a time to
// live, gossip about cached ids, requests for missing ones, and probabilistic rebroadcast.
module Rapid {
  import opened Basics
  import opened Sums
  import opened Counters
  import opened CastQueues

  type MsgId = nat

  const BETA: real := 2.5
  const MAX_HEADERS: nat := 50

  datatype Data = Data(msgid: MsgId, payload: Payload)

  // Where the dissemination thread is between the locks it takes in one round.
  datatype Sending = NoRound | Taken(payload: Payload) | NothingNew | Stored(data: Data) | Again(data: Data)

  // Where the receiving thread is between the locks it takes for one message.
  datatype Receiving = Idle | Unseen(data: Data) | Cached(data: Data) | Counted(data: Data)

  // held is a delta that the operation thread has not yet made pending; last is the last message of
  // the node's own.
  datatype Node = Node(
    count: map<Id, int>, held: Option<Payload>, pending: Option<Payload>, sending: Sending, last: Option<MsgId>,
    cache: map<MsgId, Payload>, receiving: Receiving, caster: Caster)

  const START: Node := Node(map[], None, None, NoRound, None, map[], Idle, EMPTY)

  // As many ids as a gossip names: distinct ones from the cache, all of them or fifty.
  ghost predicate Headers(cache: map<MsgId, Payload>, headers: seq<MsgId>) {
    && |headers| == Min(|cache|, MAX_HEADERS)
    && (forall h | h in headers :: h in cache)
    && forall j, k | 0 <= j < k < |headers| :: headers[j] != headers[k]
  }

  // The chance of an immediate rebroadcast: two and a half rebroadcasts are expected among many neighbours.
  function CastProb(neighbours: nat): (p: real)
    ensures 0.0 < p <= 1.0
    ensures neighbours <= 2 ==> p == 1.0
    ensures neighbours > 2 ==> p * neighbours as real == 2.5
  {
    var n := if neighbours < 1 then 1 else neighbours;
    var p := BETA / n as real;
    if p > 1.0 then 1.0 else p
  }

  // ---------------------------------------------------------------- what one node does

  // The operation thread.

  function Bumped(x: Node, id: Id, val: int): Node {
    var v := Val(x.count, id) + val;
    x.(count := x.count[id := v], held := Some(map[id := v]))
  }

  function Pended(x: Node): Node {
    if x.held.None? then x
    else
      var since := JoinMax(map[], x.held.value);
      x.(held := None, pending := Some(if x.pending.Some? then JoinMax(x.pending.value, since) else since))
  }

  // The dissemination thread, lock by lock: take what is pending; store it in the cache under a new
  // id, or look for the last message there; queue what there is to send.

  function Take(x: Node): Node {
    if x.pending.Some? then x.(pending := None, sending := Taken(x.pending.value)) else x.(sending := NothingNew)
  }

  function Store(x: Node, msgid: MsgId): Node
    requires x.sending.Taken?
  {
    var payload := x.sending.payload;
    x.(cache := x.cache[msgid := payload], sending := Stored(Data(msgid, payload)))
  }

  function Fetch(x: Node): Node {
    if x.last.Some? && x.last.value in x.cache then
      x.(sending := Again(Data(x.last.value, x.cache[x.last.value])))
    else x.(sending := NoRound)
  }

  function Queued(x: Node, now: int): Node
    requires x.sending.Stored? || x.sending.Again?
  {
    var d := x.sending.data;
    x.(caster := Pushed(x.caster, d.msgid, 1.0, now, d.payload), sending := NoRound,
       last := if x.sending.Stored? then Some(d.msgid) else x.last)
  }

  // The receiving thread, lock by lock: look in the cache, cache, join, queue for rebroadcast.

  function Looked(x: Node, d: Data): Node {
    if d.msgid in x.cache then x else x.(receiving := Unseen(d))
  }

  function Inserted(x: Node): Node
    requires x.receiving.Unseen?
  {
    var d := x.receiving.data;
    x.(cache := x.cache[d.msgid := d.payload], receiving := Cached(d))
  }

  function Joined(x: Node): Node
    requires x.receiving.Cached?
  {
    var d := x.receiving.data;
    x.(count := JoinMax(x.count, d.payload), receiving := Counted(d))
  }

  function Requeued(x: Node, neighbours: nat, when: int): Node
    requires x.receiving.Counted?
  {
    var d := x.receiving.data;
    x.(caster := Pushed(x.caster, d.msgid, CastProb(neighbours), when, d.payload), receiving := Idle)
  }

  class RapidNode {
    const id: Id
    const gc: GCounter<Id>
    const queue: CastQueue
    var held: Option<Payload>
    var pending: Option<Payload>
    var sending: Sending
    var lastLocalMsgid: Option<MsgId>
    var cache: map<MsgId, Payload>
    var receiving: Receiving

    ghost function Value(): Node
      reads this, gc, queue
    {
      Node(gc.m, held, pending, sending, lastLocalMsgid, cache, receiving, queue.Value())
    }

    ghost predicate Valid()
      reads this, gc, queue
    {
      gc.id == id && queue.Valid()
    }

    constructor (a: Id)
      ensures Valid() && Value() == START && id == a
      ensures fresh(gc) && fresh(queue)
    {
      id := a;
      gc := new GCounter(a);
      queue := new CastQueue();
      held, pending, sending, lastLocalMsgid, cache, receiving := None, None, NoRound, None, map[], Idle;
    }

    method Increment(val: int)
      requires Valid() && held.None?
      modifies this`held, gc
      ensures Valid() && Value() == Bumped(old(Value()), id, val)
      ensures Val(gc.m, id) == Val(old(gc.m), id) + val
    {
      var d := gc.Inc(val);
      held := Some(d.m);
    }

    method MakePending()
      requires Valid() && held.Some?
      modifies this`held, this`pending
      ensures Valid() && Value() == Pended(old(Value()))
      ensures held.None? && pending.Some?
      ensures var since := JoinMax(map[], old(held).value);
              pending.value == if old(pending).Some? then JoinMax(old(pending).value, since) else since
    {
      var since := new GCounter.Delta(map[], id);
      var delta := new GCounter.Delta(held.value, id);
      since.Join(delta);
      if pending.Some? {
        var state := new GCounter.Delta(pending.value, id);
        state.Join(since);
        pending := Some(state.m);
      } else {
        pending := Some(since.m);
      }
      held := None;
    }

    method TakePending()
      requires Valid() && sending.NoRound?
      modifies this`pending, this`sending
      ensures Valid() && Value() == Take(old(Value()))
    {
      if pending.Some? {
        sending := Taken(pending.value);
        pending := None;
      } else {
        sending := NothingNew;
      }
    }

    method StoreMessage(msgid: MsgId)
      requires Valid() && sending.Taken?
      modifies this`cache, this`sending
      ensures Valid() && Value() == Store(old(Value()), msgid)
    {
      cache := cache[msgid := sending.payload];
      sending := Stored(Data(msgid, sending.payload));
    }

    method FetchLast()
      requires Valid() && sending.NothingNew?
      modifies this`sending
      ensures Valid() && Value() == Fetch(old(Value()))
    {
      sending := NoRound;
      if lastLocalMsgid.Some? {
        if lastLocalMsgid.value in cache {
          sending := Again(Data(lastLocalMsgid.value, cache[lastLocalMsgid.value]));
        }
      }
    }

    method QueueMessage(now: int)
      requires Valid() && (sending.Stored? || sending.Again?)
      modifies this`sending, this`lastLocalMsgid, queue
      ensures Valid() && Value() == Queued(old(Value()), now)
    {
      queue.Push(sending.data.msgid, 1.0, now, sending.data.payload);
      if sending.Stored? {
        lastLocalMsgid := Some(sending.data.msgid);
      }
      sending := NoRound;
    }

    // A round that nothing comes between: what was pending goes out under the new id, or else the
    // last message again while it is cached.
    method Disseminate(msgid: MsgId, now: int)
      requires Valid() && sending.NoRound?
      modifies this`pending, this`sending, this`cache, this`lastLocalMsgid, queue
      ensures Valid() && sending.NoRound? && pending.None?
      ensures old(pending).Some? ==>
                && lastLocalMsgid == Some(msgid) && cache == old(cache)[msgid := old(pending).value]
                && queue.Value() == Pushed(old(queue.Value()), msgid, 1.0, now, old(pending).value)
      ensures old(pending).None? ==> cache == old(cache) && lastLocalMsgid == old(lastLocalMsgid)
      ensures old(pending).None? && lastLocalMsgid.Some? && lastLocalMsgid.value in cache ==>
                queue.Value() == Pushed(old(queue.Value()), lastLocalMsgid.value, 1.0, now, cache[lastLocalMsgid.value])
      ensures old(pending).None? && !(lastLocalMsgid.Some? && lastLocalMsgid.value in cache) ==>
                queue.Value() == old(queue.Value())
    {
      TakePending();
      if sending.Taken? {
        StoreMessage(msgid);
        QueueMessage(now);
      } else {
        FetchLast();
        if sending.Again? {
          QueueMessage(now);
        }
      }
    }

    method LookUp(d: Data)
      requires Valid() && receiving.Idle?
      modifies this`receiving
      ensures Valid() && Value() == Looked(old(Value()), d)
    {
      if d.msgid !in cache {
        receiving := Unseen(d);
      }
    }

    method InsertData()
      requires Valid() && receiving.Unseen?
      modifies this`cache, this`receiving
      ensures Valid() && Value() == Inserted(old(Value()))
    {
      cache := cache[receiving.data.msgid := receiving.data.payload];
      receiving := Cached(receiving.data);
    }

    method JoinData()
      requires Valid() && receiving.Cached?
      modifies this`receiving, gc
      ensures Valid() && Value() == Joined(old(Value()))
    {
      var recv := new GCounter.Delta(receiving.data.payload, id);
      gc.Join(recv);
      receiving := Counted(receiving.data);
    }

    method Requeue(neighbours: nat, when: int)
      requires Valid() && receiving.Counted?
      modifies this`receiving, queue
      ensures Valid() && Value() == Requeued(old(Value()), neighbours, when)
    {
      queue.Push(receiving.data.msgid, CastProb(neighbours), when, receiving.data.payload);
      receiving := Idle;
    }

    // A message that nothing comes between: one that is not cached is cached, joined and queued.
    method AcceptData(d: Data, neighbours: nat, when: int)
      requires Valid() && receiving.Idle?
      modifies this`cache, this`receiving, gc, queue
      ensures Valid() && receiving.Idle? && d.msgid in cache
      ensures d.msgid in old(cache) ==> Value() == old(Value())
      ensures d.msgid !in old(cache) ==>
                && cache == old(cache)[d.msgid := d.payload] && gc.m == JoinMax(old(gc.m), d.payload)
                && queue.Value() == Pushed(old(queue.Value()), d.msgid, CastProb(neighbours), when, d.payload)
    {
      LookUp(d);
      if receiving.Unseen? {
        InsertData();
        JoinData();
        Requeue(neighbours, when);
      }
    }

    // The gossip thread takes the first ids it meets in the cache.
    method PickHeaders() returns (headers: seq<MsgId>)
      ensures Headers(cache, headers)
      ensures |headers| == if |cache| < 50 then |cache| else 50
    {
      headers := [];
      var taken := 0;
      var rest := cache.Keys;
      while rest != {}
        invariant rest <= cache.Keys && taken == |headers| < MAX_HEADERS && |headers| + |rest| == |cache|
        invariant forall h | h in headers :: h in cache && h !in rest
        invariant forall j, k | 0 <= j < k < |headers| :: headers[j] != headers[k]
        decreases rest
      {
        var m :| m in rest;
        headers := headers + [m];
        rest := rest - {m};
        taken := taken + 1;
        if taken >= MAX_HEADERS {
          break;
        }
      }
    }

    // The maintenance pass drops the entries that have outlived their time.
    method CacheCleanup(age: map<MsgId, int>, ttl: int)
      modifies this`cache
      ensures cache == map m | m in old(cache) && !(m in age && age[m] > ttl) :: old(cache)[m]
    {
      var rest := cache.Keys;
      while rest != {}
        invariant rest <= old(cache).Keys
        invariant cache == map m | m in old(cache) && (m in rest || !(m in age && age[m] > ttl)) :: old(cache)[m]
        decreases rest
      {
        var m :| m in rest;
        if m in age && age[m] > ttl {
          cache := cache - {m};
        }
        rest := rest - {m};
      }
    }
  }

  // ---------------------------------------------------------------- runs

  datatype Message = DataMsg(data: Data) | GossipMsg(headers: seq<MsgId>) | RequestMsg(msgid: MsgId)

  // Who published a message, and what.
  datatype Origin = Origin(from: Id, payload: Payload)

  // The network keeps every packet: it may lose, duplicate, delay and reorder them. origin and
  // ever record what was published under each id and which messages each node has joined.
  datatype Sys = Sys(nodes: seq<Node>, net: set<Message>, origin: map<MsgId, Origin>, ever: seq<set<MsgId>>)

  datatype Act =
    | Inc(i: nat, val: int)
    | Pend(i: nat)
    | TakeIt(i: nat)
    | StoreIt(i: nat, msgid: MsgId)
    | FetchIt(i: nat)
    | QueueIt(i: nat, now: int)
    | Cast(i: nat, cast: CastQueues.Act)
    | Gossip(i: nat, headers: seq<MsgId>)
    | Look(i: nat, data: Data)
    | Insert(i: nat)
    | JoinIt(i: nat)
    | RequeueIt(i: nat, neighbours: nat, when: int)
    | AskFor(i: nat, headers: seq<MsgId>, msgid: MsgId)
    | Answer(i: nat, msgid: MsgId)
    | Expire(i: nat, gone: set<MsgId>)

  // Each region under one lock is a step of its own. Message ids never repeat.
  ghost predicate Step(s: Sys, a: Act, s': Sys) {
    && |s.nodes| == |s.ever| && a.i < |s.nodes|
    && var x := s.nodes[a.i];
       match a
       case Inc(i, val) =>
         val >= 1 && x.held.None? && s' == s.(nodes := s.nodes[i := Bumped(x, i, val)])
       case Pend(i) =>
         x.held.Some? && s' == s.(nodes := s.nodes[i := Pended(x)])
       case TakeIt(i) =>
         x.sending.NoRound? && s' == s.(nodes := s.nodes[i := Take(x)])
       case StoreIt(i, msgid) =>
         && x.sending.Taken? && msgid !in s.origin
         && s' == s.(nodes := s.nodes[i := Store(x, msgid)], origin := s.origin[msgid := Origin(i, x.sending.payload)])
       case FetchIt(i) =>
         x.sending.NothingNew? && s' == s.(nodes := s.nodes[i := Fetch(x)])
       case QueueIt(i, now) =>
         (x.sending.Stored? || x.sending.Again?) && s' == s.(nodes := s.nodes[i := Queued(x, now)])
       case Cast(i, cast) =>
         && !cast.Push? && Legal(cast)
         && s' == s.(nodes := s.nodes[i := x.(caster := Next(x.caster, cast))],
                     net := if cast.Decision? && Sent(x.caster, cast.r).Some?
                            then s.net + {DataMsg(Data(x.caster.held.value.msgid, x.caster.held.value.payload))}
                            else s.net)
       case Gossip(i, headers) =>
         && headers != [] && Headers(x.cache, headers)
         && s' == s.(net := s.net + {GossipMsg(headers)})
       case Look(i, data) =>
         && DataMsg(data) in s.net && x.receiving.Idle?
         && s' == s.(nodes := s.nodes[i := Looked(x, data)])
       case Insert(i) =>
         x.receiving.Unseen? && s' == s.(nodes := s.nodes[i := Inserted(x)])
       case JoinIt(i) =>
         && x.receiving.Cached?
         && s' == s.(nodes := s.nodes[i := Joined(x)], ever := s.ever[i := s.ever[i] + {x.receiving.data.msgid}])
       case RequeueIt(i, neighbours, when) =>
         x.receiving.Counted? && s' == s.(nodes := s.nodes[i := Requeued(x, neighbours, when)])
       case AskFor(i, headers, msgid) =>
         && GossipMsg(headers) in s.net && x.receiving.Idle? && msgid in headers && msgid !in x.cache
         && s' == s.(net := s.net + {RequestMsg(msgid)})
       case Answer(i, msgid) =>
         && RequestMsg(msgid) in s.net && x.receiving.Idle? && msgid in x.cache
         && s' == s.(net := s.net + {DataMsg(Data(msgid, x.cache[msgid]))})
       case Expire(i, gone) =>
         s' == s.(nodes := s.nodes[i := x.(cache := x.cache - gone)])
  }

  ghost predicate Init(s: Sys) {
    && |s.nodes| == |s.ever| && s.net == {} && s.origin == map[]
    && forall i | 0 <= i < |s.nodes| :: s.nodes[i] == START && s.ever[i] == {}
  }

  ghost predicate Run(states: seq<Sys>, acts: seq<Act>) {
    && |states| == |acts| + 1 && Init(states[0])
    && forall n | 0 <= n < |acts| :: Step(states[n], acts[n], states[n + 1])
  }

  // ---------------------------------------------------------------- what runs keep

  function Own(s: Sys): (own: seq<int>)
    ensures |own| == |s.nodes|
  {
    seq(|s.nodes|, i requires 0 <= i < |s.nodes| => Val(s.nodes[i].count, i))
  }

  // A payload is its publisher's own count, as it was.
  ghost predicate OriginOk(o: Origin, own: seq<int>) {
    && o.from < |own| && o.payload.Keys == {o.from} && 1 <= o.payload[o.from] <= own[o.from]
  }

  ghost predicate Genuine(origin: map<MsgId, Origin>, msgid: MsgId, payload: Payload) {
    msgid in origin && origin[msgid].payload == payload
  }

  ghost predicate Below(payload: Payload, count: map<Id, int>) {
    forall k | k in payload :: payload[k] <= Val(count, k)
  }

  ghost predicate GenuineData(origin: map<MsgId, Origin>, d: Data) {
    Genuine(origin, d.msgid, d.payload)
  }

  // Cached payloads are genuine, and below the node's counter unless they are just being joined.
  ghost predicate CacheOk(x: Node, origin: map<MsgId, Origin>) {
    && (forall m | m in x.cache :: Genuine(origin, m, x.cache[m]))
    && (forall m | m in x.cache && !(x.receiving.Cached? && x.receiving.data.msgid == m) :: Below(x.cache[m], x.count))
    && (!x.receiving.Idle? ==> GenuineData(origin, x.receiving.data))
  }

  ghost predicate CasterOk(c: Caster, origin: map<MsgId, Origin>) {
    && (forall e | e in c.q :: Genuine(origin, e.msgid, e.payload))
    && (c.held.Some? ==> Genuine(origin, c.held.value.msgid, c.held.value.payload))
  }

  ghost predicate CountOk(x: Node, own: seq<int>) {
    forall k | k in x.count :: k < |own| && 0 <= x.count[k] <= own[k]
  }

  // A payload of node i's own: its count, at some time.
  ghost predicate OwnPayload(p: Payload, x: Node, i: Id) {
    p.Keys == {i} && 1 <= p[i] <= Val(x.count, i)
  }

  ghost predicate SendingOk(x: Node, i: Id, origin: map<MsgId, Origin>) {
    match x.sending
    case NoRound => true
    case NothingNew => true
    case Taken(p) => OwnPayload(p, x, i)
    case Stored(d) => GenuineData(origin, d) && origin[d.msgid].from == i && OwnPayload(d.payload, x, i)
    case Again(d) => GenuineData(origin, d)
  }

  function LastCount(x: Node, i: Id, origin: map<MsgId, Origin>): int {
    if x.last.Some? && x.last.value in origin then Val(origin[x.last.value].payload, i) else 0
  }

  // The count that is on its way: pending, taken, stored, or else the last published one.
  function Waiting(x: Node, i: Id, origin: map<MsgId, Origin>): int {
    if x.pending.Some? then Val(x.pending.value, i)
    else if x.sending.Taken? then Val(x.sending.payload, i)
    else if x.sending.Stored? then Val(x.sending.data.payload, i)
    else LastCount(x, i, origin)
  }

  // It is the own count, but for the one delta that is still to be made pending.
  ghost predicate BacklogOk(x: Node, i: Id, origin: map<MsgId, Origin>) {
    var own, waiting := Val(x.count, i), Waiting(x, i, origin);
    && (x.last.Some? ==> x.last.value in origin && origin[x.last.value].from == i)
    && (x.pending.Some? ==> OwnPayload(x.pending.value, x, i))
    && (x.held.None? ==> waiting == own)
    && (x.held.Some? ==> 0 <= waiting < own && x.held.value == map[i := own])
  }

  ghost predicate EverOk(x: Node, ever: set<MsgId>, origin: map<MsgId, Origin>) {
    forall m | m in ever :: m in origin && Below(origin[m].payload, x.count)
  }

  ghost predicate NodeOk(x: Node, i: Id, ever: set<MsgId>, origin: map<MsgId, Origin>, own: seq<int>) {
    && CacheOk(x, origin) && CasterOk(x.caster, origin) && CountOk(x, own)
    && SendingOk(x, i, origin) && BacklogOk(x, i, origin) && EverOk(x, ever, origin)
  }

  ghost predicate MessageOk(m: Message, origin: map<MsgId, Origin>) {
    match m
    case DataMsg(d) => Genuine(origin, d.msgid, d.payload)
    case GossipMsg(headers) => 1 <= |headers| <= 50 && forall h | h in headers :: h in origin
    case RequestMsg(msgid) => msgid in origin
  }

  ghost predicate NodeAt(s: Sys, i: nat)
    requires i < |s.nodes| == |s.ever|
  {
    NodeOk(s.nodes[i], i, s.ever[i], s.origin, Own(s))
  }

  ghost predicate Inv(s: Sys) {
    && |s.nodes| == |s.ever|
    && (forall i {:trigger NodeAt(s, i)} | 0 <= i < |s.nodes| :: NodeAt(s, i))
    && (forall m | m in s.origin :: OriginOk(s.origin[m], Own(s)))
    && (forall m | m in s.net :: MessageOk(m, s.origin))
  }

  ghost predicate Extends(origin: map<MsgId, Origin>, origin': map<MsgId, Origin>) {
    forall m | m in origin :: m in origin' && origin'[m] == origin[m]
  }

  ghost predicate Risen(own: seq<int>, own': seq<int>) {
    |own| == |own'| && forall k | 0 <= k < |own| :: own[k] <= own'[k]
  }

  // Publishing and counting elsewhere disturb nobody.
  lemma Undisturbed(x: Node, i: Id, ever: set<MsgId>, origin: map<MsgId, Origin>, own: seq<int>,
                    origin': map<MsgId, Origin>, own': seq<int>)
    requires NodeOk(x, i, ever, origin, own) && Extends(origin, origin') && Risen(own, own')
    ensures NodeOk(x, i, ever, origin', own')
  {
  }

  ghost predicate Elsewhere(s: Sys, s': Sys, i: nat) {
    && |s.nodes| == |s.ever| == |s'.nodes| == |s'.ever| && i < |s.nodes|
    && forall j | 0 <= j < |s.nodes| && j != i :: s'.nodes[j] == s.nodes[j] && s'.ever[j] == s.ever[j]
  }

  lemma Frame(s: Sys, s': Sys, i: nat)
    requires Inv(s) && Elsewhere(s, s', i) && Extends(s.origin, s'.origin) && Risen(Own(s), Own(s'))
    requires NodeOk(s'.nodes[i], i, s'.ever[i], s'.origin, Own(s'))
    requires forall m | m in s'.origin && m !in s.origin :: OriginOk(s'.origin[m], Own(s'))
    requires forall m | m in s'.net && m !in s.net :: MessageOk(m, s'.origin)
    ensures Inv(s')
  {
    forall j | 0 <= j < |s'.nodes|
      ensures NodeAt(s', j)
    {
      assert NodeAt(s, j);
      if j != i {
        Undisturbed(s.nodes[j], j, s.ever[j], s.origin, Own(s), s'.origin, Own(s'));
      }
    }
    forall m | m in s'.origin
      ensures OriginOk(s'.origin[m], Own(s'))
    {
      if m in s.origin {
        assert OriginOk(s.origin[m], Own(s));
      }
    }
    forall m | m in s'.net
      ensures MessageOk(m, s'.origin)
    {
      if m in s.net {
        assert MessageOk(m, s.origin);
      }
    }
  }

  lemma OwnOfUpdate(s: Sys, s': Sys, i: nat)
    requires Elsewhere(s, s', i)
    ensures Own(s') == Own(s)[i := Val(s'.nodes[i].count, i)]
    ensures Val(s'.nodes[i].count, i) == Val(s.nodes[i].count, i) ==> Own(s') == Own(s)
  {
  }

  // One node changes, its own count aside.
  lemma NodeChanges(s: Sys, i: nat, x: Node, ever: set<MsgId>)
    requires Inv(s) && i < |s.nodes| && Val(x.count, i) == Val(s.nodes[i].count, i)
    requires NodeOk(x, i, ever, s.origin, Own(s))
    ensures Inv(s.(nodes := s.nodes[i := x], ever := s.ever[i := ever]))
  {
    var s' := s.(nodes := s.nodes[i := x], ever := s.ever[i := ever]);
    OwnOfUpdate(s, s', i);
    Frame(s, s', i);
  }

  // Something is sent.
  lemma NetGrows(s: Sys, m: Message)
    requires Inv(s) && MessageOk(m, s.origin)
    ensures Inv(s.(net := s.net + {m}))
  {
    var s' := s.(net := s.net + {m});
    hide NodeOk, OriginOk, MessageOk;
    assert Own(s') == Own(s);
    forall j | 0 <= j < |s'.nodes|
      ensures NodeAt(s', j)
    {
      assert NodeAt(s, j);
    }
  }

  // ---- what each kind of step does to the node that takes it

  lemma BumpedOk(x: Node, i: Id, val: int, ever: set<MsgId>, origin: map<MsgId, Origin>, own: seq<int>)
    requires NodeOk(x, i, ever, origin, own) && x.held.None? && val >= 1 && i < |own| && own[i] == Val(x.count, i)
    ensures NodeOk(Bumped(x, i, val), i, ever, origin, own[i := own[i] + val])
  {
    var x' := Bumped(x, i, val);
    assert forall k :: Val(x'.count, k) >= Val(x.count, k);
    assert Waiting(x', i, origin) == Waiting(x, i, origin);
  }

  lemma PendedOk(x: Node, i: Id, ever: set<MsgId>, origin: map<MsgId, Origin>, own: seq<int>)
    requires NodeOk(x, i, ever, origin, own) && x.held.Some?
    ensures NodeOk(Pended(x), i, ever, origin, own)
  {
    var count, since := Val(x.count, i), JoinMax(map[], x.held.value);
    assert since == map[i := count];
    if x.pending.Some? {
      assert JoinMax(x.pending.value, since) == map[i := count];
    }
  }

  // Taking, fetching and queueing.
  lemma RoundOk(x: Node, x': Node, i: Id, now: int, ever: set<MsgId>, origin: map<MsgId, Origin>, own: seq<int>)
    requires NodeOk(x, i, ever, origin, own)
    requires (x.sending.NoRound? && x' == Take(x)) || (x.sending.NothingNew? && x' == Fetch(x))
             || ((x.sending.Stored? || x.sending.Again?) && x' == Queued(x, now))
    ensures NodeOk(x', i, ever, origin, own) && x'.count == x.count
  {
    assert CacheOk(x', origin) && EverOk(x', ever, origin);
    if x.sending.Stored? || x.sending.Again? {
      forall e | e in x'.caster.q
        ensures Genuine(origin, e.msgid, e.payload)
      {
        assert e in x.caster.q || (e.msgid == x.sending.data.msgid && e.payload == x.sending.data.payload);
      }
    }
    assert Waiting(x', i, origin) == Waiting(x, i, origin);
  }

  lemma StoredOk(x: Node, i: Id, msgid: MsgId, ever: set<MsgId>, origin: map<MsgId, Origin>, own: seq<int>)
    requires NodeOk(x, i, ever, origin, own) && msgid !in origin && x.sending.Taken?
    requires i < |own| && own[i] == Val(x.count, i)
    ensures NodeOk(Store(x, msgid), i, ever, origin[msgid := Origin(i, x.sending.payload)], own)
    ensures OriginOk(Origin(i, x.sending.payload), own)
  {
    var origin' := origin[msgid := Origin(i, x.sending.payload)];
    Undisturbed(x, i, ever, origin, own, origin', own);
    var x' := Store(x, msgid);
    assert CacheOk(x', origin') && EverOk(x', ever, origin');
    assert Waiting(x', i, origin') == Waiting(x, i, origin);
  }

  lemma CastOk(c: Caster, a: CastQueues.Act, origin: map<MsgId, Origin>)
    requires CasterOk(c, origin) && !a.Push?
    ensures CasterOk(Next(c, a), origin)
    ensures c.held.Some? ==> Genuine(origin, c.held.value.msgid, c.held.value.payload)
  {
    var c' := Next(c, a);
    forall e | e in c'.q
      ensures Genuine(origin, e.msgid, e.payload)
    {
      assert e in c.q || (c.held.Some? && e.msgid == c.held.value.msgid && e.payload == c.held.value.payload);
    }
  }

  // Looking, caching and queueing for rebroadcast.
  lemma ReceivingOk(x: Node, x': Node, i: Id, a: Act, ever: set<MsgId>, origin: map<MsgId, Origin>, own: seq<int>)
    requires NodeOk(x, i, ever, origin, own)
    requires (a.Look? && x.receiving.Idle? && GenuineData(origin, a.data) && x' == Looked(x, a.data))
             || (a.Insert? && x.receiving.Unseen? && x' == Inserted(x))
             || (a.RequeueIt? && x.receiving.Counted? && x' == Requeued(x, a.neighbours, a.when))
    ensures NodeOk(x', i, ever, origin, own) && x'.count == x.count
  {
    if a.RequeueIt? {
      forall e | e in x'.caster.q
        ensures Genuine(origin, e.msgid, e.payload)
      {
        assert e in x.caster.q || (e.msgid == x.receiving.data.msgid && e.payload == x.receiving.data.payload);
      }
    }
    assert Waiting(x', i, origin) == Waiting(x, i, origin);
  }

  // Joining raises only the publisher's count, and never above the publisher's own.
  lemma JoinedCounts(x: Node, origin: map<MsgId, Origin>, own: seq<int>)
    requires x.receiving.Cached? && GenuineData(origin, x.receiving.data)
    requires OriginOk(origin[x.receiving.data.msgid], own) && CountOk(x, own)
    ensures var x', from, payload := Joined(x), origin[x.receiving.data.msgid].from, x.receiving.data.payload;
            && CountOk(x', own) && Below(payload, x'.count)
            && forall k: Id ::
                 Val(x'.count, k) == if k == from then Max(payload[from], Val(x.count, k)) else Val(x.count, k)
  {
  }

  lemma JoinedOk(x: Node, i: Id, ever: set<MsgId>, origin: map<MsgId, Origin>, own: seq<int>)
    requires NodeOk(x, i, ever, origin, own) && x.receiving.Cached? && i < |own| && own[i] == Val(x.count, i)
    requires OriginOk(origin[x.receiving.data.msgid], own)
    ensures NodeOk(Joined(x), i, ever + {x.receiving.data.msgid}, origin, own)
    ensures Val(Joined(x).count, i) == own[i]
  {
    var x', d := Joined(x), x.receiving.data;
    JoinedCounts(x, origin, own);
    assert forall k: Id :: Val(x'.count, k) >= Val(x.count, k);
    assert Val(x'.count, i) == Val(x.count, i);
    assert CacheOk(x', origin) by {
      forall m | m in x'.cache
        ensures Below(x'.cache[m], x'.count)
      {
        if m == d.msgid {
          assert Genuine(origin, m, x.cache[m]);
        } else {
          assert Below(x.cache[m], x.count);
        }
      }
    }
    assert EverOk(x', ever + {d.msgid}, origin);
    assert Waiting(x', i, origin) == Waiting(x, i, origin);
  }

  lemma ExpiredOk(x: Node, i: Id, gone: set<MsgId>, ever: set<MsgId>, origin: map<MsgId, Origin>, own: seq<int>)
    requires NodeOk(x, i, ever, origin, own)
    ensures NodeOk(x.(cache := x.cache - gone), i, ever, origin, own)
  {
  }

  lemma IncStep(s: Sys, a: Act, s': Sys)
    requires Inv(s) && Step(s, a, s') && a.Inc?
    ensures Inv(s')
  {
    assert NodeAt(s, a.i);
    var x, ever, origin, own := s.nodes[a.i], s.ever[a.i], s.origin, Own(s);
    hide CacheOk, CasterOk, CountOk, SendingOk, BacklogOk, EverOk, OriginOk, MessageOk;
    BumpedOk(x, a.i, a.val, ever, origin, own);
    OwnOfUpdate(s, s', a.i);
    Frame(s, s', a.i);
  }

  lemma PendStep(s: Sys, a: Act, s': Sys)
    requires Inv(s) && Step(s, a, s') && a.Pend?
    ensures Inv(s')
  {
    assert NodeAt(s, a.i);
    var x, ever, origin, own := s.nodes[a.i], s.ever[a.i], s.origin, Own(s);
    hide Inv, NodeOk, MessageOk;
    PendedOk(x, a.i, ever, origin, own);
    NodeChanges(s, a.i, s'.nodes[a.i], s'.ever[a.i]);
    assert s' == s.(nodes := s.nodes[a.i := s'.nodes[a.i]], ever := s.ever[a.i := s'.ever[a.i]]);
  }

  lemma RoundStep(s: Sys, a: Act, s': Sys)
    requires Inv(s) && Step(s, a, s') && (a.TakeIt? || a.FetchIt? || a.QueueIt?)
    ensures Inv(s')
  {
    assert NodeAt(s, a.i);
    var x, ever, origin, own := s.nodes[a.i], s.ever[a.i], s.origin, Own(s);
    hide Inv, NodeOk, MessageOk;
    hide Take, Fetch, Queued;
    RoundOk(x, s'.nodes[a.i], a.i, if a.QueueIt? then a.now else 0, ever, origin, own);
    NodeChanges(s, a.i, s'.nodes[a.i], s'.ever[a.i]);
    assert s' == s.(nodes := s.nodes[a.i := s'.nodes[a.i]], ever := s.ever[a.i := s'.ever[a.i]]);
  }

  lemma StoreStep(s: Sys, a: Act, s': Sys)
    requires Inv(s) && Step(s, a, s') && a.StoreIt?
    ensures Inv(s')
  {
    assert NodeAt(s, a.i);
    var x, ever, origin, own := s.nodes[a.i], s.ever[a.i], s.origin, Own(s);
    assert Extends(s.origin, s'.origin) && Risen(own, own);
    hide CacheOk, CasterOk, CountOk, SendingOk, BacklogOk, EverOk, OriginOk, MessageOk;
    hide Extends, Risen, Own;
    StoredOk(x, a.i, a.msgid, ever, origin, own);
    OwnOfUpdate(s, s', a.i);
    Frame(s, s', a.i);
  }

  lemma CastNodeOk(x: Node, i: Id, act: CastQueues.Act, ever: set<MsgId>, origin: map<MsgId, Origin>, own: seq<int>)
    requires NodeOk(x, i, ever, origin, own) && !act.Push?
    ensures NodeOk(x.(caster := Next(x.caster, act)), i, ever, origin, own)
  {
    CastOk(x.caster, act, origin);
    hide CasterOk, Next;
  }

  lemma CastStep(s: Sys, a: Act, s': Sys)
    requires Inv(s) && Step(s, a, s') && a.Cast?
    ensures Inv(s')
  {
    assert NodeAt(s, a.i);
    var x, c := s.nodes[a.i], s.nodes[a.i].caster;
    CastOk(c, a.cast, s.origin);
    hide Inv, NodeOk, Next, Legal, CasterOk, Genuine;
    var c', x' := Next(c, a.cast), x.(caster := Next(c, a.cast));
    CastNodeOk(x, a.i, a.cast, s.ever[a.i], s.origin, Own(s));
    NodeChanges(s, a.i, x', s.ever[a.i]);
    var s1 := s.(nodes := s.nodes[a.i := x'], ever := s.ever[a.i := s.ever[a.i]]);
    assert s1.ever == s.ever;
    if a.cast.Decision? && Sent(c, a.cast.r).Some? {
      NetGrows(s1, DataMsg(Data(c.held.value.msgid, c.held.value.payload)));
    }
  }

  lemma GossipOk(x: Node, origin: map<MsgId, Origin>, headers: seq<MsgId>)
    requires CacheOk(x, origin) && headers != [] && Headers(x.cache, headers)
    ensures MessageOk(GossipMsg(headers), origin)
  {
  }

  lemma SendStep(s: Sys, a: Act, s': Sys)
    requires Inv(s) && Step(s, a, s') && (a.Gossip? || a.AskFor? || a.Answer?)
    ensures Inv(s')
  {
    hide Bumped, Pended, Take, Store, Fetch, Queued, Looked, Inserted, Joined, Requeued;
    hide CasterOk, CountOk, SendingOk, BacklogOk, EverOk, OriginOk, Headers;
    assert NodeAt(s, a.i);
    var x, origin := s.nodes[a.i], s.origin;
    if a.AskFor? {
      assert MessageOk(GossipMsg(a.headers), origin);
    } else if a.Gossip? {
      GossipOk(x, origin, a.headers);
    }
    var m := if a.Gossip? then GossipMsg(a.headers)
             else if a.AskFor? then RequestMsg(a.msgid)
             else DataMsg(Data(a.msgid, x.cache[a.msgid]));
    assert MessageOk(m, origin);
    hide Inv, MessageOk, Legal, Next;
    NetGrows(s, m);
  }

  lemma ReceiveStep(s: Sys, a: Act, s': Sys)
    requires Inv(s) && Step(s, a, s') && (a.Look? || a.Insert? || a.RequeueIt?)
    ensures Inv(s')
  {
    assert NodeAt(s, a.i);
    var x, ever, origin, own := s.nodes[a.i], s.ever[a.i], s.origin, Own(s);
    if a.Look? {
      assert MessageOk(DataMsg(a.data), origin);
    }
    hide Inv, NodeOk, MessageOk;
    hide Looked, Inserted, Requeued;
    ReceivingOk(x, s'.nodes[a.i], a.i, a, ever, origin, own);
    NodeChanges(s, a.i, s'.nodes[a.i], s'.ever[a.i]);
    assert s' == s.(nodes := s.nodes[a.i := s'.nodes[a.i]], ever := s.ever[a.i := s'.ever[a.i]]);
  }

  lemma JoinStep(s: Sys, a: Act, s': Sys)
    requires Inv(s) && Step(s, a, s') && a.JoinIt?
    ensures Inv(s')
  {
    assert NodeAt(s, a.i);
    var x, ever, origin, own := s.nodes[a.i], s.ever[a.i], s.origin, Own(s);
    assert GenuineData(origin, x.receiving.data);
    assert OriginOk(origin[x.receiving.data.msgid], own);
    hide Inv, NodeOk, Joined;
    JoinedOk(x, a.i, ever, origin, own);
    NodeChanges(s, a.i, s'.nodes[a.i], s'.ever[a.i]);
    assert s' == s.(nodes := s.nodes[a.i := s'.nodes[a.i]], ever := s.ever[a.i := s'.ever[a.i]]);
  }

  lemma ExpireStep(s: Sys, a: Act, s': Sys)
    requires Inv(s) && Step(s, a, s') && a.Expire?
    ensures Inv(s')
  {
    assert NodeAt(s, a.i);
    var x, ever, origin, own := s.nodes[a.i], s.ever[a.i], s.origin, Own(s);
    hide Inv, NodeOk;
    ExpiredOk(x, a.i, a.gone, ever, origin, own);
    NodeChanges(s, a.i, s'.nodes[a.i], s'.ever[a.i]);
    assert s' == s.(nodes := s.nodes[a.i := s'.nodes[a.i]], ever := s.ever[a.i := s'.ever[a.i]]);
  }

  lemma StepKeepsInv(s: Sys, a: Act, s': Sys)
    requires Inv(s) && Step(s, a, s')
    ensures Inv(s')
  {
    hide Inv, Step;
    match a
    case Inc(_, _) => IncStep(s, a, s');
    case Pend(_) => PendStep(s, a, s');
    case TakeIt(_) => RoundStep(s, a, s');
    case StoreIt(_, _) => StoreStep(s, a, s');
    case FetchIt(_) => RoundStep(s, a, s');
    case QueueIt(_, _) => RoundStep(s, a, s');
    case Cast(_, _) => CastStep(s, a, s');
    case Gossip(_, _) => SendStep(s, a, s');
    case Look(_, _) => ReceiveStep(s, a, s');
    case Insert(_) => ReceiveStep(s, a, s');
    case JoinIt(_) => JoinStep(s, a, s');
    case RequeueIt(_, _, _) => ReceiveStep(s, a, s');
    case AskFor(_, _, _) => SendStep(s, a, s');
    case Answer(_, _) => SendStep(s, a, s');
    case Expire(_, _) => ExpireStep(s, a, s');
  }

  lemma {:induction false} RunKeepsInv(states: seq<Sys>, acts: seq<Act>, n: nat)
    requires Run(states, acts) && n < |states|
    ensures Inv(states[n])
  {
    if n == 0 {
      assert forall i | 0 <= i < |states[0].nodes| :: states[0].nodes[i] == START;
    } else {
      RunKeepsInv(states, acts, n - 1);
      assert Step(states[n - 1], acts[n - 1], states[n - 1 + 1]);
      StepKeepsInv(states[n - 1], acts[n - 1], states[n]);
    }
  }

  // ---------------------------------------------------------------- the results

  // With unique ids, every cached, queued or travelling payload is the one its origin published
  // under that id; and but for the moment between caching and joining it every cached payload is below the node's own
  // counter.
  lemma PayloadsAreGenuine(states: seq<Sys>, acts: seq<Act>, n: nat, i: nat)
    requires Run(states, acts) && n < |states| && i < |states[n].nodes|
    ensures var s := states[n];
            var x := s.nodes[i];
            && (forall m | m in x.cache :: Genuine(s.origin, m, x.cache[m]))
            && (forall e | e in x.caster.q :: Genuine(s.origin, e.msgid, e.payload))
            && (forall d: Data | DataMsg(d) in s.net :: Genuine(s.origin, d.msgid, d.payload))
            && (!x.receiving.Cached? ==> forall m | m in x.cache :: Below(x.cache[m], x.count))
  {
    RunKeepsInv(states, acts, n);
    var s := states[n];
    assert NodeAt(s, i);
    forall d: Data | DataMsg(d) in s.net
      ensures Genuine(s.origin, d.msgid, d.payload)
    {
      assert MessageOk(DataMsg(d), s.origin);
    }
  }

  // A gossip names between one and fifty ids, and like a request only published ones.
  lemma GossipIsShort(states: seq<Sys>, acts: seq<Act>, n: nat, headers: seq<MsgId>)
    requires Run(states, acts) && n < |states| && GossipMsg(headers) in states[n].net
    ensures 1 <= |headers| <= 50 && forall h | h in headers :: h in states[n].origin
  {
    RunKeepsInv(states, acts, n);
    assert MessageOk(GossipMsg(headers), states[n].origin);
  }

  // What a node's worker takes for broadcast is on the air, as the message it was queued as.
  lemma {:induction false} CastIsOnAir(states: seq<Sys>, acts: seq<Act>, n: nat, i: nat)
    requires Run(states, acts) && n < |states| && i < |states[n].nodes|
    ensures forall e | e in states[n].nodes[i].caster.cast :: DataMsg(Data(e.msgid, e.payload)) in states[n].net
  {
    if n == 0 {
      assert states[0].nodes[i] == START;
    } else {
      var s, a := states[n - 1], acts[n - 1];
      assert Step(s, a, states[n - 1 + 1]);
      CastIsOnAir(states, acts, n - 1, i);
      var act := CasterAct(s, a, states[n], i);
      if act.Some? {
        NextLogsSent(s.nodes[i].caster, act.value);
      }
    }
  }

  // Inside the whole application, too, each node's queue broadcasts every push once at most and
  // defers it once at most.
  lemma {:induction false} CasterConserves(states: seq<Sys>, acts: seq<Act>, n: nat, i: nat)
    requires Run(states, acts) && n < |states| && i < |states[n].nodes|
    ensures EntriesOk(states[n].nodes[i].caster) && Conserved(states[n].nodes[i].caster)
    ensures Budgeted(states[n].nodes[i].caster)
  {
    if n == 0 {
      assert states[0].nodes[i] == START;
    } else {
      assert Step(states[n - 1], acts[n - 1], states[n - 1 + 1]);
      CasterConserves(states, acts, n - 1, i);
      var c, c' := states[n - 1].nodes[i].caster, states[n].nodes[i].caster;
      var act := CasterAct(states[n - 1], acts[n - 1], states[n], i);
      if act.Some? {
        NextKeepsEntries(c, act.value);
        NextConserves(c, act.value);
        NextSpends(c, act.value);
      }
    }
  }

  // What a step asks of the queue of node i.
  ghost function CasterAct(s: Sys, a: Act, s': Sys, i: nat): (act: Option<CastQueues.Act>)
    requires Step(s, a, s') && i < |s.nodes|
    ensures act.None? ==> s'.nodes[i].caster == s.nodes[i].caster
    ensures act.Some? ==> Legal(act.value) && s'.nodes[i].caster == Next(s.nodes[i].caster, act.value)
  {
    var x := s.nodes[i];
    if a.i != i then None
    else if a.Cast? then Some(a.cast)
    else if a.QueueIt? then Some(Push(x.sending.data.msgid, 1.0, a.now, x.sending.data.payload))
    else if a.RequeueIt? then
      Some(Push(x.receiving.data.msgid, CastProb(a.neighbours), a.when, x.receiving.data.payload))
    else None
  }

  // What is published under an id never changes, and a count never falls.
  lemma StepGrows(s: Sys, a: Act, s': Sys, i: nat, k: Id)
    requires Inv(s) && Step(s, a, s') && i < |s.nodes|
    ensures Extends(s.origin, s'.origin)
    ensures i < |s'.nodes| && Val(s'.nodes[i].count, k) >= Val(s.nodes[i].count, k)
  {
    if a.JoinIt? && a.i == i {
      JoinedGrows(s, i, k);
    }
    hide Inv, Joined, JoinMax, Legal, Next, Headers;
  }

  lemma JoinedGrows(s: Sys, i: nat, k: Id)
    requires Inv(s) && i < |s.nodes| && s.nodes[i].receiving.Cached?
    ensures Val(Joined(s.nodes[i]).count, k) >= Val(s.nodes[i].count, k)
  {
    assert NodeAt(s, i);
    assert OriginOk(s.origin[s.nodes[i].receiving.data.msgid], Own(s));
    JoinedCounts(s.nodes[i], s.origin, Own(s));
  }

  // ---- what is counted is what was done

  function OwnCount(s: Sys, i: Id): int {
    if i < |s.nodes| then Val(s.nodes[i].count, i) else 0
  }

  // The amounts of the increments of node i, and of all increments.
  function Added(acts: seq<Act>, i: nat): int {
    if acts == [] then 0
    else
      var a := acts[|acts| - 1];
      Added(acts[..|acts| - 1], i) + if a.Inc? && a.i == i then a.val else 0
  }

  function Created(acts: seq<Act>): int {
    if acts == [] then 0
    else
      var a := acts[|acts| - 1];
      Created(acts[..|acts| - 1]) + if a.Inc? then a.val else 0
  }

  ghost function AddedBy(acts: seq<Act>): Id -> int {
    (i: Id) => Added(acts, i)
  }

  lemma OwnAfterStep(s: Sys, a: Act, s': Sys, i: nat)
    requires Inv(s) && Step(s, a, s') && i < |s.nodes|
    ensures |s'.nodes| == |s.nodes|
    ensures OwnCount(s', i) == OwnCount(s, i) + if a.Inc? && a.i == i then a.val else 0
  {
    if a.JoinIt? && a.i == i {
      OwnAfterJoin(s, i);
    }
    hide Inv, Joined, JoinMax, Legal, Next, Headers;
  }

  lemma OwnAfterJoin(s: Sys, i: nat)
    requires Inv(s) && i < |s.nodes| && s.nodes[i].receiving.Cached?
    ensures Val(Joined(s.nodes[i]).count, i) == Val(s.nodes[i].count, i)
  {
    assert NodeAt(s, i);
    assert OriginOk(s.origin[s.nodes[i].receiving.data.msgid], Own(s));
    JoinedCounts(s.nodes[i], s.origin, Own(s));
  }

  // A node's own count is the sum of its increments, whatever it received.
  lemma {:induction false} OwnIsAdded(states: seq<Sys>, acts: seq<Act>, n: nat, i: nat)
    requires Run(states, acts) && n < |states| && i < |states[0].nodes|
    ensures |states[n].nodes| == |states[0].nodes|
    ensures OwnCount(states[n], i) == Added(acts[..n], i)
  {
    if n == 0 {
      assert states[0].nodes[i] == START;
    } else {
      OwnIsAdded(states, acts, n - 1, i);
      RunKeepsInv(states, acts, n - 1);
      assert Step(states[n - 1], acts[n - 1], states[n - 1 + 1]);
      hide Inv, Step;
      OwnAfterStep(states[n - 1], acts[n - 1], states[n], i);
      assert acts[..n][..n - 1] == acts[..n - 1];
    }
  }

  lemma {:induction false} CreatedIsAdded(acts: seq<Act>, nodes: nat)
    requires forall a | a in acts :: a.i < nodes
    ensures Sum(Ids(nodes), AddedBy(acts)) == Created(acts)
  {
    if acts == [] {
      SumZero(Ids(nodes), AddedBy(acts));
    } else {
      var before, a := acts[..|acts| - 1], acts[|acts| - 1];
      CreatedIsAdded(before, nodes);
      assert a in acts;
      SumUpdate(Ids(nodes), AddedBy(before), AddedBy(acts), a.i);
    }
  }

  lemma StepSameNodes(s: Sys, a: Act, s': Sys)
    requires Step(s, a, s')
    ensures |s'.nodes| == |s.nodes| && a.i < |s.nodes|
  {
  }

  lemma {:induction false} SameNodes(states: seq<Sys>, acts: seq<Act>, n: nat)
    requires Run(states, acts) && n < |states|
    ensures |states[n].nodes| == |states[0].nodes|
    ensures forall a | a in acts[..n] :: a.i < |states[0].nodes|
  {
    if n > 0 {
      SameNodes(states, acts, n - 1);
      assert Step(states[n - 1], acts[n - 1], states[n - 1 + 1]);
      StepSameNodes(states[n - 1], acts[n - 1], states[n]);
      hide Step;
      assert acts[..n] == acts[..n - 1] + [acts[n - 1]];
    }
  }

  // So in every run the own counts add up to all that was ever incremented.
  lemma TruthIsCreated(states: seq<Sys>, acts: seq<Act>, n: nat)
    requires Run(states, acts) && n < |states|
    ensures Sum(Ids(|states[n].nodes|), i => OwnCount(states[n], i)) == Created(acts[..n])
  {
    SameNodes(states, acts, n);
    var ids := Ids(|states[n].nodes|);
    forall i | i in ids
      ensures OwnCount(states[n], i) == Added(acts[..n], i)
    {
      OwnIsAdded(states, acts, n, i);
    }
    SumCongruent(ids, i => OwnCount(states[n], i), AddedBy(acts[..n]));
    CreatedIsAdded(acts[..n], |states[n].nodes|);
  }

  // Nothing is waiting to be published, and no thread is in the middle of a round or message.
  ghost predicate Quiescent(s: Sys) {
    forall i {:trigger s.nodes[i]} | 0 <= i < |s.nodes| ::
      s.nodes[i].held.None? && s.nodes[i].pending.None? && s.nodes[i].sending.NoRound? && s.nodes[i].receiving.Idle?
  }

  ghost predicate GotLast(s: Sys, r: nat)
    requires |s.nodes| == |s.ever| && r < |s.ever|
  {
    forall i {:trigger s.nodes[i]} | 0 <= i < |s.nodes| && i != r && s.nodes[i].last.Some? ::
      s.nodes[i].last.value in s.ever[r]
  }

  // Then a node that has ever joined each other node's last message reads exactly the sum of all
  // increments, whatever else was lost, repeated, reordered or has expired from its cache.
  lemma LastMessagesSuffice(states: seq<Sys>, acts: seq<Act>, n: nat, r: nat)
    requires Run(states, acts) && n < |states|
    requires r < |states[n].nodes| == |states[n].ever|
    requires Quiescent(states[n]) && GotLast(states[n], r)
    ensures Total(states[n].nodes[r].count) == Created(acts[..n])
  {
    RunKeepsInv(states, acts, n);
    var s := states[n];
    var count, ids, own := s.nodes[r].count, Ids(|s.nodes|), Own(s);
    assert NodeAt(s, r);
    forall i | i in ids
      ensures Val(count, i) == OwnCount(s, i)
    {
      assert NodeAt(s, i);
      assert Val(count, i) <= own[i];
      if i != r && s.nodes[i].last.Some? {
        assert OriginOk(s.origin[s.nodes[i].last.value], own);
      }
    }
    TotalOver(count, ids);
    SumCongruent(ids, i => Val(count, i), i => OwnCount(s, i));
    TruthIsCreated(states, acts, n);
  }
}

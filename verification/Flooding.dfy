// Flooding by broadcast: increments gather in a delta buffer, a periodic flush sends the buffer,
// and a quiet period sends the last payload once more.
module Flooding {
  import opened Basics
  import opened Sums
  import opened Counters

  type Payload = map<Id, int>

  const RETRIGGERS_BUDGET: nat := 1

  // held is a delta the operation thread has taken from the counter but not yet buffered.
  datatype Node = Node(
    count: map<Id, int>, held: Option<Payload>, buffer: map<Id, int>, last: Option<Payload>, retriggers: nat)

  // ---------------------------------------------------------------- what one node does

  function Bumped(x: Node, id: Id, val: int): Node {
    var v := Val(x.count, id) + val;
    x.(count := x.count[id := v], held := Some(map[id := v]))
  }

  function Buffered(x: Node): Node {
    if x.held.None? then x else x.(held := None, buffer := JoinMax(x.buffer, x.held.value))
  }

  // What the dissemination round sends, if anything.
  function Outgoing(x: Node): Option<Payload> {
    if x.buffer != map[] then Some(x.buffer)
    else if x.retriggers > 0 then x.last
    else None
  }

  function Flushed(x: Node): Node {
    if x.buffer != map[] then x.(buffer := map[], last := Some(x.buffer), retriggers := RETRIGGERS_BUDGET)
    else if x.retriggers > 0 && x.last.Some? then x.(retriggers := x.retriggers - 1)
    else x
  }

  function Heard(x: Node, payload: Payload): Node {
    x.(count := JoinMax(x.count, payload))
  }

  class FloodNode {
    const id: Id
    const gc: GCounter<Id>
    const deltaBuffer: GCounter<Id>
    var held: GCounter?<Id>
    var lastPayload: Option<Payload>
    var retriggersLeft: nat

    ghost predicate Apart()
      reads this
    {
      gc != deltaBuffer && gc.id == id && held != gc && held != deltaBuffer
    }

    ghost function Value(): Node
      reads this, gc, deltaBuffer, held
    {
      Node(gc.m, if held == null then None else Some(held.m), deltaBuffer.m, lastPayload, retriggersLeft)
    }

    constructor (a: Id)
      ensures Apart() && Value() == Node(map[], None, map[], None, 0)
    {
      id := a;
      gc := new GCounter(a);
      deltaBuffer := new GCounter(a);
      held := null;
      lastPayload := None;
      retriggersLeft := 0;
    }

    method Increment(val: int)
      requires Apart() && held == null
      modifies this`held, gc
      ensures Apart() && Value() == Bumped(old(Value()), id, val)
      ensures Val(gc.m, id) == Val(old(gc.m), id) + val
    {
      held := gc.Inc(val);
    }

    method BufferDelta()
      requires Apart() && held != null
      modifies this`held, deltaBuffer
      ensures Apart() && Value() == Buffered(old(Value()))
      ensures deltaBuffer.m == JoinMax(old(deltaBuffer.m), old(held.m)) && held == null
    {
      deltaBuffer.Join(held);
      held := null;
    }

    // One round of the dissemination loop.
    method Disseminate() returns (payload: Option<Payload>)
      requires Apart()
      modifies this`lastPayload, this`retriggersLeft, deltaBuffer
      ensures Apart() && Value() == Flushed(old(Value()))
      ensures payload == Outgoing(old(Value()))
    {
      payload := None;
      var hasNew := false;
      if deltaBuffer.m != map[] {
        payload := Some(deltaBuffer.m);
        deltaBuffer.m := map[];
        hasNew := true;
      }
      if !hasNew {
        if retriggersLeft > 0 && lastPayload.Some? {
          payload := lastPayload;
          retriggersLeft := retriggersLeft - 1;
        } else {
          return;
        }
      } else {
        lastPayload := payload;
        retriggersLeft := RETRIGGERS_BUDGET;
      }
    }

    method Receive(payload: Payload)
      requires Apart()
      modifies gc
      ensures Apart() && Value() == Heard(old(Value()), payload)
      ensures gc.m == JoinMax(old(gc.m), payload)
    {
      var sender := new GCounter.Delta(payload, id);
      gc.Join(sender);
    }
  }

  // ---------------------------------------------------------------- runs

  datatype Packet = Packet(from: Id, payload: Payload)

  // sent counts every packet ever sent: the network may lose, duplicate, delay and reorder them.
  // got remembers which packets each node has joined.
  datatype Sys = Sys(nodes: seq<Node>, sent: multiset<Packet>, got: seq<set<Packet>>)

  datatype Act =
    | Inc(i: nat, val: int)
    | Buffer(i: nat)
    | Flush(i: nat)
    | Deliver(i: nat, packet: Packet)

  ghost predicate Step(s: Sys, a: Act, s': Sys) {
    && |s.nodes| == |s.got| && a.i < |s.nodes|
    && var x := s.nodes[a.i];
       match a
       case Inc(i, val) => val >= 1 && x.held.None? && s' == s.(nodes := s.nodes[i := Bumped(x, i, val)])
       case Buffer(i) => x.held.Some? && s' == s.(nodes := s.nodes[i := Buffered(x)])
       case Flush(i) =>
         s' == s.(nodes := s.nodes[i := Flushed(x)],
                  sent := if Outgoing(x).Some? then s.sent + multiset{Packet(i, Outgoing(x).value)} else s.sent)
       case Deliver(i, packet) =>
         && packet in s.sent
         && s' == s.(nodes := s.nodes[i := Heard(x, packet.payload)], got := s.got[i := s.got[i] + {packet}])
  }

  ghost predicate Init(s: Sys) {
    && |s.nodes| == |s.got| && s.sent == multiset{}
    && forall i | 0 <= i < |s.nodes| :: s.nodes[i] == Node(map[], None, map[], None, 0) && s.got[i] == {}
  }

  ghost predicate Run(states: seq<Sys>, acts: seq<Act>) {
    && |states| == |acts| + 1 && Init(states[0])
    && forall n | 0 <= n < |acts| :: Step(states[n], acts[n], states[n + 1])
  }

  // ---------------------------------------------------------------- what runs keep

  function Own(s: Sys, i: Id): int {
    if i < |s.nodes| then Val(s.nodes[i].count, i) else 0
  }

  function LastCount(x: Node, id: Id): int {
    if x.last.Some? then Val(x.last.value, id) else 0
  }

  // A buffer or payload of node id: nothing, or its own count.
  ghost predicate OwnOnly(m: map<Id, int>, id: Id) {
    m.Keys <= {id} && (id in m ==> m[id] >= 1)
  }

  // The larger of the buffered and the last sent count is the own count, but for the one delta
  // that is still to be buffered.
  ghost predicate Backlog(x: Node, id: Id) {
    var waiting := Max(Val(x.buffer, id), LastCount(x, id));
    && OwnOnly(x.buffer, id)
    && (x.last.Some? ==> OwnOnly(x.last.value, id) && id in x.last.value)
    && (id in x.buffer ==> x.buffer[id] > LastCount(x, id))
    && (x.held.None? ==> waiting == Val(x.count, id))
    && (x.held.Some? ==> waiting < Val(x.count, id) && x.held.value == map[id := Val(x.count, id)])
    && x.retriggers <= RETRIGGERS_BUDGET
  }

  // What was sent: only own counts, none above the last payload; each payload at most twice, the
  // last one exactly as often as its retriggers were used, plus once.
  ghost predicate SentOk(s: Sys, p: Packet) {
    && p.from < |s.nodes|
    && OwnOnly(p.payload, p.from) && p.from in p.payload
    && p.payload[p.from] <= LastCount(s.nodes[p.from], p.from)
    && 1 <= s.sent[p] <= 1 + RETRIGGERS_BUDGET
  }

  ghost predicate LastSent(s: Sys, i: nat)
    requires i < |s.nodes|
  {
    var x := s.nodes[i];
    x.last.Some? ==> s.sent[Packet(i, x.last.value)] == 1 + RETRIGGERS_BUDGET - x.retriggers
  }

  ghost predicate CountsOk(s: Sys, count: map<Id, int>) {
    forall j | j in count :: 0 <= count[j] <= Own(s, j) && j < |s.nodes|
  }

  ghost predicate GotOk(s: Sys, count: map<Id, int>, got: set<Packet>) {
    forall p | p in got :: p in s.sent && Val(count, p.from) >= Val(p.payload, p.from)
  }

  ghost predicate NodeOk(s: Sys, i: nat)
    requires i < |s.nodes| == |s.got|
  {
    && Backlog(s.nodes[i], i) && LastSent(s, i)
    && CountsOk(s, s.nodes[i].count) && GotOk(s, s.nodes[i].count, s.got[i])
  }

  ghost predicate Inv(s: Sys) {
    && |s.nodes| == |s.got|
    && (forall i {:trigger NodeOk(s, i)} | 0 <= i < |s.nodes| :: NodeOk(s, i))
    && (forall p | p in s.sent :: SentOk(s, p))
  }

  // A node that took no part stays as it was.
  lemma Untouched(s: Sys, s': Sys, j: nat)
    requires |s.nodes| == |s.got| && j < |s.nodes| && NodeOk(s, j)
    requires |s'.nodes| == |s'.got| == |s.nodes| && s'.nodes[j] == s.nodes[j] && s'.got[j] == s.got[j]
    requires forall k :: Own(s, k) <= Own(s', k)
    requires forall p :: s.sent[p] <= s'.sent[p] && (p.from == j ==> s.sent[p] == s'.sent[p])
    ensures NodeOk(s', j)
  {
  }

  // Steps that send nothing and leave the last payloads alone.
  lemma NothingSent(s: Sys, s': Sys)
    requires Inv(s) && s'.sent == s.sent && |s'.nodes| == |s.nodes|
    requires forall j | 0 <= j < |s.nodes| :: s'.nodes[j].last == s.nodes[j].last
    ensures forall p | p in s'.sent :: SentOk(s', p)
  {
    forall p | p in s'.sent
      ensures SentOk(s', p)
    {
      assert SentOk(s, p);
    }
  }

  // The backlog of a node that takes a step of its own.
  lemma LocalBacklog(x: Node, i: Id, val: int)
    requires Backlog(x, i) && val >= 1
    ensures x.held.None? ==> Backlog(Bumped(x, i, val), i)
    ensures Backlog(Buffered(x), i)
    ensures Backlog(Flushed(x), i)
  {
  }

  lemma OwnOfLocal(s: Sys, a: Act, s': Sys)
    requires Step(s, a, s') && (a.Inc? || a.Buffer?)
    ensures forall k :: Own(s, k) <= Own(s', k)
    ensures forall k: Id :: Val(s.nodes[a.i].count, k) <= Val(s'.nodes[a.i].count, k)
    ensures forall k | k in s'.nodes[a.i].count && k != a.i ::
              k in s.nodes[a.i].count && s'.nodes[a.i].count[k] == s.nodes[a.i].count[k]
  {
  }

  lemma LocalNode(s: Sys, a: Act, s': Sys)
    requires Inv(s) && Step(s, a, s') && (a.Inc? || a.Buffer?)
    ensures NodeOk(s', a.i)
  {
    assert NodeOk(s, a.i);
    hide Inv, SentOk, Backlog;
    LocalBacklog(s.nodes[a.i], a.i, if a.Inc? then a.val else 1);
    OwnOfLocal(s, a, s');
    hide Bumped, Buffered;
  }

  lemma LocalKeepsInv(s: Sys, a: Act, s': Sys)
    requires Inv(s) && Step(s, a, s') && (a.Inc? || a.Buffer?)
    ensures Inv(s')
  {
    LocalNode(s, a, s');
    OwnOfLocal(s, a, s');
    NothingSent(s, s');
    forall j | 0 <= j < |s'.nodes|
      ensures NodeOk(s', j)
    {
      assert NodeOk(s, j);
      if j != a.i {
        Untouched(s, s', j);
      }
    }
  }

  // A filled buffer is a payload that was never sent before.
  lemma BufferIsNew(s: Sys, i: nat)
    requires Inv(s) && i < |s.nodes| && s.nodes[i].buffer != map[]
    ensures i in s.nodes[i].buffer && s.sent[Packet(i, s.nodes[i].buffer)] == 0
  {
    assert NodeOk(s, i);
    assert s.nodes[i].buffer.Keys != {};
    forall p | p in s.sent
      ensures p != Packet(i, s.nodes[i].buffer)
    {
      assert SentOk(s, p);
    }
  }

  lemma FlushNode(s: Sys, a: Act, s': Sys)
    requires Inv(s) && Step(s, a, s') && a.Flush?
    ensures NodeOk(s', a.i) && forall k :: Own(s', k) == Own(s, k)
    ensures Packet(a.i, s.nodes[a.i].buffer) in s.sent ==> s.nodes[a.i].buffer == map[]
  {
    assert NodeOk(s, a.i);
    if s.nodes[a.i].buffer != map[] {
      BufferIsNew(s, a.i);
    }
    hide Inv, SentOk;
    LocalBacklog(s.nodes[a.i], a.i, 1);
    assert LastSent(s', a.i);
    hide Backlog, LastSent;
  }

  lemma FlushSent(s: Sys, a: Act, s': Sys, p: Packet)
    requires Inv(s) && Step(s, a, s') && a.Flush? && p in s'.sent && NodeOk(s', a.i)
    ensures SentOk(s', p)
  {
    assert NodeOk(s, a.i);
    if s.nodes[a.i].buffer != map[] {
      BufferIsNew(s, a.i);
    }
    assert p in s.sent ==> SentOk(s, p);
    hide Inv, CountsOk, GotOk;
  }

  lemma FlushKeepsInv(s: Sys, a: Act, s': Sys)
    requires Inv(s) && Step(s, a, s') && a.Flush?
    ensures Inv(s')
  {
    FlushNode(s, a, s');
    forall j | 0 <= j < |s'.nodes|
      ensures NodeOk(s', j)
    {
      assert NodeOk(s, j);
      if j != a.i {
        Untouched(s, s', j);
      }
    }
    forall p | p in s'.sent
      ensures SentOk(s', p)
    {
      FlushSent(s, a, s', p);
    }
  }

  lemma HeardVal(x: Node, payload: Payload, from: Id, k: Id)
    requires OwnOnly(payload, from)
    ensures Val(Heard(x, payload).count, k) ==
            if k == from && k in payload then Max(payload[k], Val(x.count, k)) else Val(x.count, k)
  {
  }

  lemma DeliverKeepsInv(s: Sys, a: Act, s': Sys)
    requires Inv(s) && Step(s, a, s') && a.Deliver?
    ensures Inv(s')
  {
    var i, from, x, payload := a.i, a.packet.from, s.nodes[a.i], a.packet.payload;
    assert SentOk(s, a.packet) && NodeOk(s, i) && NodeOk(s, from);
    assert payload[from] <= Own(s, from);
    forall k: Id
      ensures Val(s'.nodes[i].count, k) == if k == from then Max(payload[k], Val(x.count, k)) else Val(x.count, k)
    {
      HeardVal(x, payload, from, k);
    }
    assert forall k :: Own(s', k) == Own(s, k);
    NothingSent(s, s');
    forall j | 0 <= j < |s'.nodes|
      ensures NodeOk(s', j)
    {
      assert NodeOk(s, j);
      if j != i {
        Untouched(s, s', j);
      } else {
        HeardIsOk(s, s', i, a.packet);
      }
    }
  }

  lemma HeardIsOk(s: Sys, s': Sys, i: nat, p: Packet)
    requires Inv(s) && i < |s.nodes| && p in s.sent && Step(s, Deliver(i, p), s')
    requires forall k :: Own(s', k) == Own(s, k)
    requires p.from < |s.nodes| && p.from in p.payload && 0 <= p.payload[p.from] <= Own(s, p.from)
    requires forall k :: Val(s'.nodes[i].count, k) ==
                         if k == p.from then Max(p.payload[k], Val(s.nodes[i].count, k)) else Val(s.nodes[i].count, k)
    requires OwnOnly(p.payload, p.from)
    ensures NodeOk(s', i)
  {
    assert NodeOk(s, i);
    forall j | j in s'.nodes[i].count
      ensures 0 <= s'.nodes[i].count[j] <= Own(s', j) && j < |s'.nodes|
    {
      assert Val(s'.nodes[i].count, j) == s'.nodes[i].count[j];
    }
  }

  lemma {:induction false} RunKeepsInv(states: seq<Sys>, acts: seq<Act>, n: nat)
    requires Run(states, acts) && n < |states|
    ensures Inv(states[n])
  {
    if n > 0 {
      RunKeepsInv(states, acts, n - 1);
      var s, a, s' := states[n - 1], acts[n - 1], states[n];
      assert Step(s, a, states[n - 1 + 1]);
      match a
      case Inc(_, _) => LocalKeepsInv(s, a, s');
      case Buffer(_) => LocalKeepsInv(s, a, s');
      case Flush(_) => FlushKeepsInv(s, a, s');
      case Deliver(_, _) => DeliverKeepsInv(s, a, s');
    }
  }

  // ---------------------------------------------------------------- the results

  // No increment is ever stranded: at every moment the larger of the buffered and the last sent
  // count is the own count, except for the one delta still on its way to the buffer.
  lemma NothingStranded(states: seq<Sys>, acts: seq<Act>, n: nat, i: nat)
    requires Run(states, acts) && n < |states| && i < |states[n].nodes|
    ensures var x := states[n].nodes[i];
            var waiting := Max(Val(x.buffer, i), LastCount(x, i));
            (x.held.None? ==> waiting == Own(states[n], i))
            && (x.held.Some? ==> waiting < Own(states[n], i) && Max(waiting, Val(x.held.value, i)) == Own(states[n], i))
  {
    RunKeepsInv(states, acts, n);
    assert NodeOk(states[n], i);
  }

  // Every payload carries its sender's own id only and is sent once or twice.
  lemma SentAtMostTwice(states: seq<Sys>, acts: seq<Act>, n: nat, p: Packet)
    requires Run(states, acts) && n < |states| && p in states[n].sent
    ensures p.payload.Keys == {p.from} && 1 <= states[n].sent[p] <= 2
  {
    RunKeepsInv(states, acts, n);
    assert SentOk(states[n], p);
  }

  // ---- what is counted is what was done

  // The amounts of the increments of node i, and of all increments.
  function Added(acts: seq<Act>, i: nat): int {
    if acts == [] then 0
    else
      var a := acts[|acts| - 1];
      Added(acts[..|acts| - 1], i) + if a.Inc? && a.i == i then a.val else 0
  }

  function Created(acts: seq<Act>): int {
    if acts == [] then 0
    else
      var a := acts[|acts| - 1];
      Created(acts[..|acts| - 1]) + if a.Inc? then a.val else 0
  }

  ghost function AddedBy(acts: seq<Act>): Id -> int {
    (i: Id) => Added(acts, i)
  }

  lemma OwnAfterStep(s: Sys, a: Act, s': Sys, i: nat)
    requires Inv(s) && Step(s, a, s') && i < |s.nodes|
    ensures |s'.nodes| == |s.nodes|
    ensures Own(s', i) == Own(s, i) + if a.Inc? && a.i == i then a.val else 0
  {
    if a.Deliver? {
      assert SentOk(s, a.packet) && NodeOk(s, a.packet.from);
      HeardVal(s.nodes[a.i], a.packet.payload, a.packet.from, i);
    }
  }

  // A node's own count is the sum of its increments, whatever it received.
  lemma {:induction false} OwnIsAdded(states: seq<Sys>, acts: seq<Act>, n: nat, i: nat)
    requires Run(states, acts) && n < |states| && i < |states[0].nodes|
    ensures |states[n].nodes| == |states[0].nodes|
    ensures Own(states[n], i) == Added(acts[..n], i)
  {
    if n > 0 {
      OwnIsAdded(states, acts, n - 1, i);
      RunKeepsInv(states, acts, n - 1);
      assert Step(states[n - 1], acts[n - 1], states[n - 1 + 1]);
      OwnAfterStep(states[n - 1], acts[n - 1], states[n], i);
      assert acts[..n][..n - 1] == acts[..n - 1];
    }
  }

  lemma {:induction false} CreatedIsAdded(acts: seq<Act>, nodes: nat)
    requires forall a | a in acts :: a.i < nodes
    ensures Sum(Ids(nodes), AddedBy(acts)) == Created(acts)
  {
    if acts == [] {
      SumZero(Ids(nodes), AddedBy(acts));
    } else {
      var before, a := acts[..|acts| - 1], acts[|acts| - 1];
      CreatedIsAdded(before, nodes);
      assert a in acts;
      SumUpdate(Ids(nodes), AddedBy(before), AddedBy(acts), a.i);
    }
  }

  lemma {:induction false} SameNodes(states: seq<Sys>, acts: seq<Act>, n: nat)
    requires Run(states, acts) && n < |states|
    ensures |states[n].nodes| == |states[0].nodes|
    ensures forall a | a in acts[..n] :: a.i < |states[0].nodes|
  {
    if n > 0 {
      SameNodes(states, acts, n - 1);
      assert Step(states[n - 1], acts[n - 1], states[n - 1 + 1]);
      assert acts[..n] == acts[..n - 1] + [acts[n - 1]];
    }
  }

  // So in every run the own counts add up to all that was ever incremented.
  lemma TruthIsCreated(states: seq<Sys>, acts: seq<Act>, n: nat)
    requires Run(states, acts) && n < |states|
    ensures Sum(Ids(|states[n].nodes|), i => Own(states[n], i)) == Created(acts[..n])
  {
    SameNodes(states, acts, n);
    var ids := Ids(|states[n].nodes|);
    forall i | i in ids
      ensures Own(states[n], i) == Added(acts[..n], i)
    {
      OwnIsAdded(states, acts, n, i);
    }
    SumCongruent(ids, i => Own(states[n], i), AddedBy(acts[..n]));
    CreatedIsAdded(acts[..n], |states[n].nodes|);
  }

  // A quiet period sends the last payload again: once a flush finds nothing new, that payload has
  // been sent twice.
  lemma LastIsRepeated(states: seq<Sys>, acts: seq<Act>, n: nat)
    requires Run(states, acts) && n < |acts| && acts[n].Flush? && acts[n].i < |states[n].nodes|
    requires states[n].nodes[acts[n].i].buffer == map[] && states[n].nodes[acts[n].i].last.Some?
    ensures var i := acts[n].i;
            && states[n + 1].nodes[i].last == states[n].nodes[i].last
            && states[n + 1].sent[Packet(i, states[n].nodes[i].last.value)] == 2
  {
    RunKeepsInv(states, acts, n);
    assert Step(states[n], acts[n], states[n + 1]);
    assert NodeOk(states[n], acts[n].i);
  }

  // The operation threads are idle and everything buffered was flushed.
  ghost predicate Quiescent(s: Sys) {
    forall i | 0 <= i < |s.nodes| :: s.nodes[i].held.None? && s.nodes[i].buffer == map[]
  }

  // The receiver has joined the last payload of every node that sent any, itself aside.
  ghost predicate GotLast(s: Sys, r: nat)
    requires |s.nodes| == |s.got| && r < |s.got|
  {
    forall i | 0 <= i < |s.nodes| && i != r && s.nodes[i].last.Some? :: Packet(i, s.nodes[i].last.value) in s.got[r]
  }

  // Then it reads exactly the sum of all increments, whatever else was lost, duplicated or reordered.
  lemma LastPayloadsSuffice(states: seq<Sys>, acts: seq<Act>, n: nat, r: nat)
    requires Run(states, acts) && n < |states|
    requires r < |states[n].nodes| == |states[n].got|
    requires Quiescent(states[n]) && GotLast(states[n], r)
    ensures Total(states[n].nodes[r].count) == Created(acts[..n])
  {
    RunKeepsInv(states, acts, n);
    var s := states[n];
    var count, ids := s.nodes[r].count, Ids(|s.nodes|);
    assert NodeOk(s, r);
    forall i | i in ids
      ensures Val(count, i) == Own(s, i)
    {
      assert NodeOk(s, i);
    }
    TotalOver(count, ids);
    SumCongruent(ids, i => Val(count, i), i => Own(s, i));
    TruthIsCreated(states, acts, n);
  }
}

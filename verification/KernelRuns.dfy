// Distributed runs of the types built on a dot kernel: uniquely named replicas mutate, ship whole
// states or deltas, and absorb whatever arrives. A packet stays in the network for good, so any
// packet may be lost, delayed, reordered or delivered many times.
module KernelRuns {
  import opened Basics
  import opened DotContexts
  import opened DotKernels
  import opened DotTypes

  // Every mutator removes the observed payloads it hits, and may then put one payload of its own.
  datatype Op<!T> = Op(put: Option<T>, hits: T -> bool)

  // One mutation: where it happened, what it was, which mutations the replica had absorbed, its delta.
  datatype Event<!T> = Event(rep: Id, op: Op<T>, seen: set<nat>, delta: Kernel<T>)

  // A state or delta, with the indices of the mutations it was joined from.
  datatype Packet<T> = Packet(state: Kernel<T>, events: set<nat>)

  datatype Sys<!T> = Sys(reps: map<Id, Packet<T>>, net: seq<Packet<T>>, log: seq<Event<T>>)

  datatype Act<!T> =
    | Mutate(r: Id, op: Op<T>, publish: bool)
    | Ship(r: Id)
    | Group(p: Packet<T>, q: Packet<T>)
    | Deliver(r: Id, p: Packet<T>)

  ghost function Removing<T>(k: Kernel<T>, op: Op<T>): set<Dot> {
    set d | d in k.ds && op.hits(k.ds[d])
  }

  ghost function Mutated<T>(k: Kernel<T>, r: Id, op: Op<T>): Kernel<T> {
    if op.put.Some? then Put(Drop(k, Removing(k, op)), r, op.put.value) else Drop(k, Removing(k, op))
  }

  ghost function Delta<T>(k: Kernel<T>, r: Id, op: Op<T>): Kernel<T> {
    if op.put.Some? then ReplaceDelta(k, Removing(k, op), r, op.put.value) else DropDelta(Removing(k, op))
  }

  ghost function Joined<T>(p: Packet<T>, q: Packet<T>): Packet<T> {
    Packet(KJoin(p.state, q.state), p.events + q.events)
  }

  ghost predicate Init<T>(s: Sys<T>) {
    && s.net == [] && s.log == []
    && forall r | r in s.reps :: s.reps[r] == Packet(Empty(), {})
  }

  ghost predicate Step<T>(s: Sys<T>, a: Act<T>, s': Sys<T>) {
    match a
    case Mutate(r, op, publish) =>
      r in s.reps &&
      var me := s.reps[r];
      var delta := Delta(me.state, r, op);
      s' == Sys(
        s.reps[r := Packet(Mutated(me.state, r, op), me.events + {|s.log|})],
        if publish then s.net + [Packet(delta, {|s.log|})] else s.net,
        s.log + [Event(r, op, me.events, delta)])
    case Ship(r) =>
      r in s.reps && s' == s.(net := s.net + [s.reps[r]])
    case Group(p, q) =>
      p in s.net && q in s.net && s' == s.(net := s.net + [Joined(p, q)])
    case Deliver(r, p) =>
      r in s.reps && p in s.net && s' == s.(reps := s.reps[r := Joined(s.reps[r], p)])
  }

  ghost predicate Run<T>(states: seq<Sys<T>>, acts: seq<Act<T>>) {
    && |states| == |acts| + 1
    && Init(states[0])
    && forall i | 0 <= i < |acts| :: Step(states[i], acts[i], states[i + 1])
  }

  // ---------------------------------------------------------------- what a set of mutations means

  ghost predicate Removes<T>(e: Event<T>, d: Dot) {
    In(e.delta.c, d) && d !in e.delta.ds
  }

  ghost predicate Known<T>(log: seq<Event<T>>, events: set<nat>, d: Dot) {
    exists i | i in events :: i < |log| && In(log[i].delta.c, d)
  }

  ghost predicate Added<T>(log: seq<Event<T>>, events: set<nat>, d: Dot) {
    exists i | i in events :: i < |log| && d in log[i].delta.ds
  }

  ghost predicate Removed<T>(log: seq<Event<T>>, events: set<nat>, d: Dot) {
    exists i | i in events :: i < |log| && Removes(log[i], d)
  }

  ghost predicate Alive<T>(log: seq<Event<T>>, events: set<nat>, d: Dot) {
    Added(log, events, d) && !Removed(log, events, d)
  }

  // The packet holds exactly the dots added and not removed by its mutations, and knows their union.
  ghost predicate Denotes<T>(log: seq<Event<T>>, p: Packet<T>) {
    && (forall i | i in p.events :: i < |log|)
    && Wf(p.state)
    && (forall d: Dot :: In(p.state.c, d) <==> Known(log, p.events, d))
    && (forall d: Dot :: d in p.state.ds <==> Alive(log, p.events, d))
    && (forall d, i | d in p.state.ds && 0 <= i < |log| && d in log[i].delta.ds :: p.state.ds[d] == log[i].delta.ds[d])
  }

  ghost predicate EventOk<T>(log: seq<Event<T>>, i: nat)
    requires i < |log|
  {
    var e := log[i];
    && Wf(e.delta)
    && (forall j | j in e.seen :: j < i)
    && (e.op.put.Some? ==> exists d: Dot :: e.delta.ds == map[d := e.op.put.value])
    && (e.op.put.None? ==> e.delta.ds == map[])
    && (forall d: Dot | Removes(e, d) :: Alive(log, e.seen, d))
    && (forall d: Dot, j | Alive(log, e.seen, d) && 0 <= j < i && d in log[j].delta.ds ::
          Removes(e, d) <==> e.op.hits(log[j].delta.ds[d]))
  }

  ghost predicate LogOk<T>(log: seq<Event<T>>) {
    && (forall i: nat | i < |log| :: EventOk(log, i))
    && (forall i: nat, j: nat, d: Dot |
          i < |log| && j < |log| && d in log[i].delta.ds && d in log[j].delta.ds :: i == j)
  }

  // A replica knows every dot that was ever generated under its name.
  ghost predicate OwnKnown<T>(reps: map<Id, Packet<T>>, log: seq<Event<T>>) {
    forall i: nat, d: Dot | i < |log| && In(log[i].delta.c, d) && d.id in reps :: In(reps[d.id].state.c, d)
  }

  ghost predicate Inv<T>(s: Sys<T>) {
    && LogOk(s.log)
    && (forall r | r in s.reps :: Denotes(s.log, s.reps[r]) && Replica(s.reps[r].state, r))
    && (forall p | p in s.net :: Denotes(s.log, p))
    && OwnKnown(s.reps, s.log)
  }

  // ---------------------------------------------------------------- preservation

  // Joining packets joins the sets of mutations they stand for.
  lemma JoinDenotes<T>(log: seq<Event<T>>, p: Packet<T>, q: Packet<T>)
    requires LogOk(log) && Denotes(log, p) && Denotes(log, q)
    ensures Denotes(log, Joined(p, q))
  {
    var pq := Joined(p, q);
    JoinKeepsWf(KeepMine, p.state, q.state);
    forall d: Dot
      ensures In(pq.state.c, d) <==> Known(log, pq.events, d)
      ensures d in pq.state.ds <==> Alive(log, pq.events, d)
      ensures forall i | d in pq.state.ds && 0 <= i < |log| && d in log[i].delta.ds ::
                pq.state.ds[d] == log[i].delta.ds[d]
    {
      JoinDenotesAt(log, p, q, d);
    }
  }

  lemma JoinDenotesAt<T>(log: seq<Event<T>>, p: Packet<T>, q: Packet<T>, d: Dot)
    requires LogOk(log) && Denotes(log, p) && Denotes(log, q)
    ensures var pq := Joined(p, q);
            && (In(pq.state.c, d) <==> Known(log, pq.events, d))
            && (d in pq.state.ds <==> Alive(log, pq.events, d))
            && (forall i | d in pq.state.ds && 0 <= i < |log| && d in log[i].delta.ds ::
                  pq.state.ds[d] == log[i].delta.ds[d])
  {
    var pq := Joined(p, q);
    AtJoin(KeepMine, p.state, q.state, d);
    assert At(pq.state, d) == JoinEntry(KeepMine, At(p.state, d), At(q.state, d));
    UnionOf(log, p.events, q.events, d);
    KnownSplits(log, p.events, d);
    KnownSplits(log, q.events, d);
  }

  lemma UnionOf<T>(log: seq<Event<T>>, a: set<nat>, b: set<nat>, d: Dot)
    ensures Known(log, a + b, d) <==> Known(log, a, d) || Known(log, b, d)
    ensures Added(log, a + b, d) <==> Added(log, a, d) || Added(log, b, d)
    ensures Removed(log, a + b, d) <==> Removed(log, a, d) || Removed(log, b, d)
  {
  }

  lemma KnownSplits<T>(log: seq<Event<T>>, a: set<nat>, d: Dot)
    requires LogOk(log)
    ensures Known(log, a, d) <==> Added(log, a, d) || Removed(log, a, d)
  {
    if Known(log, a, d) {
      var i :| i in a && i < |log| && In(log[i].delta.c, d);
      assert d in log[i].delta.ds || Removes(log[i], d);
    }
    if Added(log, a, d) {
      var i :| i in a && i < |log| && d in log[i].delta.ds;
      assert EventOk(log, i);
      assert In(log[i].delta.c, d);
    }
  }

  // Logging one more mutation changes nothing for sets of earlier ones.
  lemma LongerLog<T>(log: seq<Event<T>>, e: Event<T>, a: set<nat>, d: Dot)
    requires forall i | i in a :: i < |log|
    ensures Known(log + [e], a, d) <==> Known(log, a, d)
    ensures Alive(log + [e], a, d) <==> Alive(log, a, d)
  {
    var log' := log + [e];
    assert forall i | i in a :: log'[i] == log[i];
  }

  lemma DenotesInLongerLog<T>(log: seq<Event<T>>, e: Event<T>, p: Packet<T>)
    requires Denotes(log, p)
    requires forall d: Dot | d in e.delta.ds :: !In(p.state.c, d)
    ensures Denotes(log + [e], p)
  {
    forall d: Dot
      ensures Known(log + [e], p.events, d) <==> Known(log, p.events, d)
      ensures Alive(log + [e], p.events, d) <==> Alive(log, p.events, d)
    {
      LongerLog(log, e, p.events, d);
    }
  }

  // What the delta of a mutation says, dot by dot.
  lemma DeltaAt<T>(k: Kernel<T>, r: Id, op: Op<T>)
    requires Replica(k, r)
    ensures Mutated(k, r, op) == KJoin(k, Delta(k, r, op))
    ensures Replica(Mutated(k, r, op), r)
    ensures Wf(Delta(k, r, op))
    ensures Delta(k, r, op).ds == if op.put.Some? then map[NextDot(k.c, r) := op.put.value] else map[]
    ensures !In(k.c, NextDot(k.c, r))
    ensures forall d: Dot :: In(Delta(k, r, op).c, d) <==>
              d in Removing(k, op) || (op.put.Some? && d == NextDot(k.c, r))
  {
    NextDotIsFresh(k.c, r);
    if op.put.Some? {
      ReplaceDeltaIsJoin(k, Removing(k, op), r, op.put.value);
      ReplaceLaw(k, Removing(k, op), r, op.put.value);
    } else {
      DropLaw(k, Removing(k, op));
    }
  }

  lemma NewEventOk<T>(log: seq<Event<T>>, me: Packet<T>, r: Id, op: Op<T>)
    requires LogOk(log) && Denotes(log, me) && Replica(me.state, r)
    ensures EventOk(log + [Event(r, op, me.events, Delta(me.state, r, op))], |log|)
  {
    var k := me.state;
    var e := Event(r, op, me.events, Delta(k, r, op));
    var log' := log + [e];
    DeltaAt(k, r, op);
    forall d: Dot
      ensures Removes(e, d) <==> d in Removing(k, op)
      ensures Alive(log', e.seen, d) <==> d in k.ds
    {
      LongerLog(log, e, e.seen, d);
    }
    forall d: Dot, j | d in k.ds && 0 <= j < |log| && d in log'[j].delta.ds
      ensures Removes(e, d) <==> e.op.hits(log'[j].delta.ds[d])
    {
      assert log'[j] == log[j];
    }
  }

  lemma LongerLogOk<T>(log: seq<Event<T>>, e: Event<T>)
    requires LogOk(log)
    requires EventOk(log + [e], |log|)
    requires forall i: nat, d: Dot | i < |log| && d in log[i].delta.ds :: d !in e.delta.ds
    ensures LogOk(log + [e])
  {
    var log' := log + [e];
    forall i: nat | i < |log|
      ensures EventOk(log', i)
    {
      assert EventOk(log, i) && log'[i] == log[i];
      forall d: Dot
        ensures Alive(log', log[i].seen, d) <==> Alive(log, log[i].seen, d)
      {
        LongerLog(log, e, log[i].seen, d);
      }
      forall d: Dot, j | Alive(log', log[i].seen, d) && 0 <= j < i && d in log'[j].delta.ds
        ensures Removes(log[i], d) <==> log[i].op.hits(log'[j].delta.ds[d])
      {
        assert log'[j] == log[j];
      }
    }
    forall i: nat, j: nat, d: Dot | i < |log'| && j < |log'| && d in log'[i].delta.ds && d in log'[j].delta.ds
      ensures i == j
    {
      assert i < |log| ==> log'[i] == log[i];
      assert j < |log| ==> log'[j] == log[j];
    }
  }

  lemma NewLogOk<T>(s: Sys<T>, r: Id, op: Op<T>)
    requires Inv(s) && r in s.reps
    ensures var me := s.reps[r];
            var e := Event(r, op, me.events, Delta(me.state, r, op));
            && LogOk(s.log + [e])
            && (forall p: Packet<T>, d: Dot | Denotes(s.log, p) && d in e.delta.ds :: !In(p.state.c, d))
  {
    var me := s.reps[r];
    var e := Event(r, op, me.events, Delta(me.state, r, op));
    DeltaAt(me.state, r, op);
    forall i: nat, d: Dot | i < |s.log| && d in e.delta.ds
      ensures !In(s.log[i].delta.c, d) && d !in s.log[i].delta.ds
    {
      assert EventOk(s.log, i);
    }
    forall p: Packet<T>, d: Dot | Denotes(s.log, p) && d in e.delta.ds
      ensures !In(p.state.c, d)
    {
      assert In(p.state.c, d) ==> Known(s.log, p.events, d);
    }
    NewEventOk(s.log, me, r, op);
    LongerLogOk(s.log, e);
  }

  lemma MutateKeepsOwnKnown<T>(s: Sys<T>, r: Id, op: Op<T>, publish: bool, s': Sys<T>)
    requires Inv(s) && Step(s, Mutate(r, op, publish), s')
    ensures OwnKnown(s'.reps, s'.log)
  {
    var me, n := s.reps[r], |s.log|;
    var k, delta := me.state, Delta(me.state, r, op);
    DeltaAt(k, r, op);
    InCtxJoin(k.c, delta.c);
    forall i: nat, d: Dot | i < |s'.log| && In(s'.log[i].delta.c, d) && d.id in s'.reps
      ensures In(s'.reps[d.id].state.c, d)
    {
      if i < n {
        assert s'.log[i] == s.log[i];
        assert In(s.reps[d.id].state.c, d);
      } else if d in Removing(k, op) {
        assert Known(s.log, me.events, d);
        var j :| j in me.events && j < n && In(s.log[j].delta.c, d);
        assert In(s.reps[d.id].state.c, d);
      }
    }
  }

  // The packets of before still denote the same mutations, and the delta denotes the new one.
  lemma MutateDenotes<T>(s: Sys<T>, r: Id, op: Op<T>, log': seq<Event<T>>)
    requires Inv(s) && r in s.reps
    requires log' == s.log + [Event(r, op, s.reps[r].events, Delta(s.reps[r].state, r, op))]
    ensures LogOk(log')
    ensures forall p: Packet<T> | Denotes(s.log, p) :: Denotes(log', p)
    ensures Denotes(log', Packet(Delta(s.reps[r].state, r, op), {|s.log|}))
  {
    NewLogOk(s, r, op);
    forall p: Packet<T> | Denotes(s.log, p)
      ensures Denotes(log', p)
    {
      DenotesInLongerLog(s.log, log'[|s.log|], p);
    }
    DeltaDenotes(log', |s.log|);
  }

  ghost function AfterMutation<T>(s: Sys<T>, r: Id, op: Op<T>): Packet<T>
    requires r in s.reps
  {
    Packet(Mutated(s.reps[r].state, r, op), s.reps[r].events + {|s.log|})
  }

  lemma MutatedReplica<T>(s: Sys<T>, r: Id, op: Op<T>, log': seq<Event<T>>)
    requires Inv(s) && r in s.reps
    requires log' == s.log + [Event(r, op, s.reps[r].events, Delta(s.reps[r].state, r, op))]
    ensures Denotes(log', AfterMutation(s, r, op)) && Replica(AfterMutation(s, r, op).state, r)
  {
    var me := s.reps[r];
    var delta := Packet(Delta(me.state, r, op), {|s.log|});
    MutateDenotes(s, r, op, log');
    JoinDenotes(log', me, delta);
    DeltaAt(me.state, r, op);
  }

  lemma MutateKeepsInv<T>(s: Sys<T>, r: Id, op: Op<T>, publish: bool, s': Sys<T>)
    requires Inv(s) && Step(s, Mutate(r, op, publish), s')
    ensures Inv(s')
  {
    hide Denotes, Replica;
    MutateDenotes(s, r, op, s'.log);
    MutatedReplica(s, r, op, s'.log);
    MutateKeepsOwnKnown(s, r, op, publish, s');
    assert forall p | p in s'.net :: p in s.net || p == Packet(Delta(s.reps[r].state, r, op), {|s.log|});
  }

  lemma DeltaDenotes<T>(log: seq<Event<T>>, n: nat)
    requires LogOk(log) && n < |log|
    ensures Denotes(log, Packet(log[n].delta, {n}))
  {
    var p := Packet(log[n].delta, {n});
    assert EventOk(log, n);
    forall d: Dot
      ensures In(p.state.c, d) <==> Known(log, p.events, d)
      ensures d in p.state.ds <==> Alive(log, p.events, d)
    {
      assert n in p.events;
    }
  }

  // What a replica absorbs never contains a dot of its own that it does not know yet.
  lemma AbsorbKeepsReplica<T>(s: Sys<T>, r: Id, p: Packet<T>)
    requires Inv(s) && r in s.reps && p in s.net
    ensures Replica(KJoin(s.reps[r].state, p.state), r)
  {
    var me := s.reps[r];
    var c := CtxJoin(me.state.c, p.state.c);
    JoinKeepsWf(KeepMine, me.state, p.state);
    InCtxJoin(me.state.c, p.state.c);
    forall n: Positive
      ensures In(c, Dot(r, n)) <==> n <= Top(me.state.c.cc, r)
    {
      if In(p.state.c, Dot(r, n)) {
        assert Known(s.log, p.events, Dot(r, n));
      }
    }
    GaplessIsOwnCompact(c, r, Top(me.state.c.cc, r));
  }

  lemma DeliverKeepsInv<T>(s: Sys<T>, r: Id, p: Packet<T>, s': Sys<T>)
    requires Inv(s) && Step(s, Deliver(r, p), s')
    ensures Inv(s')
  {
    JoinDenotes(s.log, s.reps[r], p);
    AbsorbKeepsReplica(s, r, p);
    DeliverKeepsOwnKnown(s, r, p, s');
  }

  lemma DeliverKeepsOwnKnown<T>(s: Sys<T>, r: Id, p: Packet<T>, s': Sys<T>)
    requires Inv(s) && Step(s, Deliver(r, p), s')
    ensures OwnKnown(s'.reps, s'.log)
  {
    InCtxJoin(s.reps[r].state.c, p.state.c);
  }

  lemma StepKeepsInv<T>(s: Sys<T>, a: Act<T>, s': Sys<T>)
    requires Inv(s) && Step(s, a, s')
    ensures Inv(s')
  {
    match a
    case Mutate(r, op, publish) => MutateKeepsInv(s, r, op, publish, s');
    case Ship(r) =>
    case Group(p, q) => JoinDenotes(s.log, p, q);
    case Deliver(r, p) => DeliverKeepsInv(s, r, p, s');
  }

  lemma {:induction false} RunKeepsInv<T>(states: seq<Sys<T>>, acts: seq<Act<T>>, n: nat)
    requires Run(states, acts) && n < |states|
    ensures Inv(states[n])
  {
    if n > 0 {
      RunKeepsInv(states, acts, n - 1);
      StepKeepsInv(states[n - 1], acts[n - 1], states[n]);
    }
  }

  // Every logged mutation is one the run performed.
  lemma {:induction false} LoggedWasPerformed<T>(states: seq<Sys<T>>, acts: seq<Act<T>>, n: nat, i: nat)
    requires Run(states, acts) && n < |states| && i < |states[n].log|
    ensures exists m :: 0 <= m < n && acts[m].Mutate? && acts[m].op == states[n].log[i].op
  {
    if n > 0 {
      assert Step(states[n - 1], acts[n - 1], states[n - 1 + 1]);
      if i < |states[n - 1].log| {
        LoggedWasPerformed(states, acts, n - 1, i);
      }
    }
  }

  // ---------------------------------------------------------------- strong eventual consistency

  // In every run, two replicas (or packets) that absorbed the same mutations are in the same state,
  // down to the representation of their contexts.
  lemma SameEventsSameStateInRun<T>(states: seq<Sys<T>>, acts: seq<Act<T>>, n: nat, q: Id, r: Id)
    requires Run(states, acts) && n < |states|
    requires q in states[n].reps && r in states[n].reps
    requires states[n].reps[q].events == states[n].reps[r].events
    ensures states[n].reps[q].state == states[n].reps[r].state
  {
    RunKeepsInv(states, acts, n);
    SameEventsSameState(states[n].log, states[n].reps[q], states[n].reps[r]);
  }

  lemma SameEventsSameState<T>(log: seq<Event<T>>, p: Packet<T>, q: Packet<T>)
    requires Denotes(log, p) && Denotes(log, q)
    requires p.events == q.events
    ensures p.state == q.state
  {
    forall d: Dot
      ensures At(p.state, d) == At(q.state, d)
    {
      if d in p.state.ds {
        var i :| i in p.events && i < |log| && d in log[i].delta.ds;
        assert p.state.ds[d] == log[i].delta.ds[d] == q.state.ds[d];
      }
    }
    SameEverywhere(p.state, q.state);
  }

  // In every run the store of every replica is exactly the dots added minus the dots removed by the
  // mutations it absorbed, and its context is the union of their contexts.
  lemma StoreIsAddedMinusRemoved<T>(states: seq<Sys<T>>, acts: seq<Act<T>>, n: nat, r: Id, d: Dot)
    requires Run(states, acts) && n < |states| && r in states[n].reps
    ensures var s := states[n]; var me := s.reps[r];
            && (d in me.state.ds <==> Added(s.log, me.events, d) && !Removed(s.log, me.events, d))
            && (In(me.state.c, d) <==> Known(s.log, me.events, d))
  {
    RunKeepsInv(states, acts, n);
  }

  // A payload that no absorbed mutation has both observed and hit is stored.
  lemma UnhitPutIsStored<T>(states: seq<Sys<T>>, acts: seq<Act<T>>, n: nat, r: Id, i: nat, v: T)
    requires Run(states, acts) && n < |states| && r in states[n].reps
    requires i in states[n].reps[r].events && i < |states[n].log| && states[n].log[i].op.put == Some(v)
    requires forall j | j in states[n].reps[r].events && j < |states[n].log| && states[n].log[j].op.hits(v) ::
               i !in states[n].log[j].seen
    ensures v in states[n].reps[r].state.ds.Values
  {
    RunKeepsInv(states, acts, n);
    var log, me := states[n].log, states[n].reps[r];
    assert EventOk(log, i);
    var d: Dot :| log[i].delta.ds == map[d := v];
    assert d in log[i].delta.ds;
    if Removed(log, me.events, d) {
      var j :| j in me.events && j < |log| && Removes(log[j], d);
      RemoverHasSeen(log, i, j, d);
      assert false;
    }
    assert d in me.state.ds && me.state.ds[d] == v;
  }

  // Whoever removes a dot has seen the mutation that added it, and its operation targets the value.
  lemma RemoverHasSeen<T>(log: seq<Event<T>>, i: nat, j: nat, d: Dot)
    requires LogOk(log) && i < |log| && j < |log|
    requires d in log[i].delta.ds && Removes(log[j], d)
    ensures i in log[j].seen
    ensures log[j].op.hits(log[i].delta.ds[d])
  {
    assert EventOk(log, j);
    assert Alive(log, log[j].seen, d);
    var k :| k in log[j].seen && k < |log| && d in log[k].delta.ds;
    assert k == i;
  }

  // ---------------------------------------------------------------- the payloads a causal replica stores

  ghost predicate Causal<T>(log: seq<Event<T>>, events: set<nat>) {
    forall i | i in events :: i < |log| && log[i].seen <= events
  }

  // Whole-state shipping: no delta leaves the replica that made it.
  ghost predicate WholeStates<T>(acts: seq<Act<T>>) {
    forall i | 0 <= i < |acts| && acts[i].Mutate? :: !acts[i].publish
  }

  ghost predicate AllCausal<T>(s: Sys<T>) {
    && (forall i: nat | i < |s.log| :: Causal(s.log, s.log[i].seen))
    && (forall r | r in s.reps :: Causal(s.log, s.reps[r].events))
    && (forall p | p in s.net :: Causal(s.log, p.events))
  }

  lemma CausalInLongerLog<T>(log: seq<Event<T>>, e: Event<T>, events: set<nat>)
    requires Causal(log, events)
    ensures Causal(log + [e], events)
  {
    assert forall i | i in events :: (log + [e])[i] == log[i];
  }

  lemma StepKeepsCausal<T>(s: Sys<T>, a: Act<T>, s': Sys<T>)
    requires AllCausal(s) && Step(s, a, s')
    requires a.Mutate? ==> !a.publish
    ensures AllCausal(s')
  {
    hide Mutated, Delta;
    if a.Mutate? {
      var me, e := s.reps[a.r], s'.log[|s.log|];
      forall i: nat | i < |s'.log|
        ensures Causal(s'.log, s'.log[i].seen)
      {
        CausalInLongerLog(s.log, e, if i < |s.log| then s.log[i].seen else me.events);
      }
      forall r | r in s'.reps
        ensures Causal(s'.log, s'.reps[r].events)
      {
        CausalInLongerLog(s.log, e, s.reps[r].events);
      }
      forall p | p in s'.net
        ensures Causal(s'.log, p.events)
      {
        CausalInLongerLog(s.log, e, p.events);
      }
    }
  }

  lemma {:induction false} RunKeepsCausal<T>(states: seq<Sys<T>>, acts: seq<Act<T>>, n: nat)
    requires Run(states, acts) && WholeStates(acts) && n < |states|
    ensures AllCausal(states[n])
  {
    if n > 0 {
      RunKeepsCausal(states, acts, n - 1);
      StepKeepsCausal(states[n - 1], acts[n - 1], states[n]);
    }
  }

  // Some visible mutation put v, and no visible one that hits v without putting it back has seen that.
  ghost predicate Standing<T>(log: seq<Event<T>>, events: set<nat>, i: nat, v: T) {
    && i in events && i < |log| && log[i].op.put == Some(v)
    && forall j | j in events && j < |log| && log[j].op.hits(v) && log[j].op.put != Some(v) :: i !in log[j].seen
  }

  // With whole-state shipping, a replica stores exactly the payloads with a standing put: a
  // specification that mentions no dots.
  lemma StoredIsStanding<T>(states: seq<Sys<T>>, acts: seq<Act<T>>, n: nat, r: Id, v: T)
    requires Run(states, acts) && WholeStates(acts) && n < |states| && r in states[n].reps
    ensures v in states[n].reps[r].state.ds.Values <==>
            exists i: nat :: Standing(states[n].log, states[n].reps[r].events, i, v)
  {
    RunKeepsInv(states, acts, n);
    RunKeepsCausal(states, acts, n);
    var log, me := states[n].log, states[n].reps[r];
    if v in me.state.ds.Values {
      var d :| d in me.state.ds && me.state.ds[d] == v;
      StoredHasStanding(log, me, d);
    }
    if i: nat :| Standing(log, me.events, i, v) {
      assert forall j: nat | j < |log| :: Causal(log, log[j].seen);
      StandingIsStored(log, me, i, v);
    }
  }

  lemma StoredHasStanding<T>(log: seq<Event<T>>, p: Packet<T>, d: Dot)
    requires LogOk(log) && Denotes(log, p) && Causal(log, p.events)
    requires d in p.state.ds
    ensures exists i: nat :: Standing(log, p.events, i, p.state.ds[d])
  {
    var v := p.state.ds[d];
    var i: nat :| i in p.events && i < |log| && d in log[i].delta.ds;
    assert EventOk(log, i);
    assert log[i].op.put == Some(v);
    forall j | j in p.events && j < |log| && log[j].op.hits(v) && log[j].op.put != Some(v)
      ensures i !in log[j].seen
    {
      assert EventOk(log, j);
      if i in log[j].seen {
        assert false;
      }
    }
    assert Standing(log, p.events, i, v);
  }

  // If the dot of a standing put is gone, a later put of the same payload that is standing too took it.
  lemma {:induction false} StandingIsStored<T>(log: seq<Event<T>>, p: Packet<T>, i: nat, v: T)
    requires LogOk(log) && Denotes(log, p) && Causal(log, p.events)
    requires forall j: nat | j < |log| :: Causal(log, log[j].seen)
    requires Standing(log, p.events, i, v)
    ensures v in p.state.ds.Values
    decreases |log| - i
  {
    assert EventOk(log, i);
    var d: Dot :| log[i].delta.ds == map[d := v];
    assert d in log[i].delta.ds;
    if Removed(log, p.events, d) {
      var j: nat :| j in p.events && j < |log| && Removes(log[j], d);
      RemoverHasSeen(log, i, j, d);
      assert EventOk(log, j);
      assert log[j].op.put == Some(v);
      forall k | k in p.events && k < |log| && log[k].op.hits(v) && log[k].op.put != Some(v)
        ensures j !in log[k].seen
      {
        if j in log[k].seen {
          assert false;
        }
      }
      StandingIsStored(log, p, j, v);
    } else {
      assert d in p.state.ds && p.state.ds[d] == v;
    }
  }
}

// Distributed runs of bounded counters. Each replica checks only its own capacity; the lemmas say
// what that guarantees about the rights everyone holds and the value everyone reads.
module BCounterRuns {
  import opened Basics
  import opened Sums
  import opened Counters

  // ---------------------------------------------------------------- flows over a fixed set of ids

  ghost predicate Within(x: BState, ids: set<Id>) {
    && NonNegative(x)
    && x.p.Keys <= ids && x.n.Keys <= ids
    && EdgesIn(x.m, ids)
  }

  ghost predicate EdgesIn(m: map<(Id, Id), int>, ids: set<Id>) {
    forall e | e in m :: e.0 in ids && e.1 in ids
  }

  ghost function InTo(m: map<(Id, Id), int>, id: Id): Id -> int {
    (j: Id) => Val(m, (j, id))
  }

  ghost function OutOf(m: map<(Id, Id), int>, id: Id): Id -> int {
    (j: Id) => Val(m, (id, j))
  }

  ghost function PairsTo(js: set<Id>, id: Id): set<(Id, Id)> {
    set j | j in js :: (j, id)
  }

  ghost function PairsFrom(js: set<Id>, id: Id): set<(Id, Id)> {
    set j | j in js :: (id, j)
  }

  lemma {:induction false} SumOfPairsTo(js: set<Id>, id: Id, f: ((Id, Id)) -> int, g: Id -> int)
    requires forall j | j in js :: g(j) == f((j, id))
    ensures Sum(PairsTo(js, id), f) == Sum(js, g)
    decreases |js|
  {
    if js == {} {
      assert PairsTo(js, id) == {};
    } else {
      var j :| j in js;
      SumOfPairsTo(js - {j}, id, f, g);
      assert PairsTo(js - {j}, id) == PairsTo(js, id) - {(j, id)};
      SumRemove(PairsTo(js, id), f, (j, id));
      SumRemove(js, g, j);
    }
  }

  lemma {:induction false} SumOfPairsFrom(js: set<Id>, id: Id, f: ((Id, Id)) -> int, g: Id -> int)
    requires forall j | j in js :: g(j) == f((id, j))
    ensures Sum(PairsFrom(js, id), f) == Sum(js, g)
    decreases |js|
  {
    if js == {} {
      assert PairsFrom(js, id) == {};
    } else {
      var j :| j in js;
      SumOfPairsFrom(js - {j}, id, f, g);
      assert PairsFrom(js - {j}, id) == PairsFrom(js, id) - {(id, j)};
      SumRemove(PairsFrom(js, id), f, (id, j));
      SumRemove(js, g, j);
    }
  }

  // Summing over the transfers that name an id is summing over the ids at the other end.
  lemma InflowOver(m: map<(Id, Id), int>, ids: set<Id>, id: Id)
    requires EdgesIn(m, ids)
    ensures Inflow(m, id) == Sum(ids, InTo(m, id))
  {
    var f := (e: (Id, Id)) => if e.1 == id then Val(m, e) else 0;
    var pairs := PairsTo(ids, id);
    SumExtend(m.Keys, m.Keys + pairs, f);
    SumExtend(pairs, m.Keys + pairs, f);
    SumOfPairsTo(ids, id, f, InTo(m, id));
  }

  lemma OutflowOver(m: map<(Id, Id), int>, ids: set<Id>, id: Id)
    requires EdgesIn(m, ids)
    ensures Outflow(m, id) == Sum(ids, OutOf(m, id))
  {
    var f := (e: (Id, Id)) => if e.0 == id then Val(m, e) else 0;
    var pairs := PairsFrom(ids, id);
    SumExtend(m.Keys, m.Keys + pairs, f);
    SumExtend(pairs, m.Keys + pairs, f);
    SumOfPairsFrom(ids, id, f, OutOf(m, id));
  }

  ghost function Inflows(m: map<(Id, Id), int>): Id -> int {
    (i: Id) => Inflow(m, i)
  }

  ghost function Outflows(m: map<(Id, Id), int>): Id -> int {
    (i: Id) => Outflow(m, i)
  }

  // What flows out of some id flows into another.
  lemma FlowsCancel(m: map<(Id, Id), int>, ids: set<Id>)
    requires EdgesIn(m, ids)
    ensures Sum(ids, Inflows(m)) == Sum(ids, Outflows(m))
  {
    forall i | i in ids
      ensures Inflow(m, i) == Sum(ids, InTo(m, i)) && Outflow(m, i) == Sum(ids, OutOf(m, i))
    {
      InflowOver(m, ids, i);
      OutflowOver(m, ids, i);
    }
    SumSwap(ids, ids, (i: Id) => OutOf(m, i), (j: Id) => InTo(m, j), Outflows(m), Inflows(m));
  }

  ghost function RightsIn(x: BState): Id -> int {
    (i: Id) => Rights(x, i)
  }

  // The value a state reads is the sum of the rights it derives.
  lemma ReadIsSumOfRights(x: BState, ids: set<Id>)
    requires Within(x, ids)
    ensures ReadOf(x) == Sum(ids, RightsIn(x))
  {
    hide Sum, Val, Inflow, Outflow;
    var p: Id -> int := (i: Id) => Val(x.p, i);
    var n: Id -> int := (i: Id) => Val(x.n, i);
    var minusN: Id -> int := (i: Id) => -Val(x.n, i);
    var pn: Id -> int := (i: Id) => Val(x.p, i) - Val(x.n, i);
    var minusOut: Id -> int := (i: Id) => -Outflow(x.m, i);
    var net: Id -> int := (i: Id) => Inflow(x.m, i) - Outflow(x.m, i);
    TotalOver(x.p, ids);
    TotalOver(x.n, ids);
    SumNegate(ids, n, minusN);
    SumAdd(ids, p, minusN, pn);
    FlowsCancel(x.m, ids);
    SumNegate(ids, Outflows(x.m), minusOut);
    SumAdd(ids, Inflows(x.m), minusOut, net);
    SumAdd(ids, pn, net, RightsIn(x));
  }

  // ---------------------------------------------------------------- order on states

  ghost predicate Below(x: BState, y: BState) {
    && (forall k :: Val(x.p, k) <= Val(y.p, k))
    && (forall k :: Val(x.n, k) <= Val(y.n, k))
    && (forall e :: Val(x.m, e) <= Val(y.m, e))
  }

  // x and y agree on everything replica k itself writes.
  ghost predicate OwnEq(x: BState, y: BState, k: Id) {
    && Val(x.p, k) == Val(y.p, k)
    && Val(x.n, k) == Val(y.n, k)
    && forall j :: Val(x.m, (k, j)) == Val(y.m, (k, j))
  }

  ghost predicate OwnBelow(x: BState, y: BState, k: Id) {
    && Val(x.p, k) <= Val(y.p, k)
    && Val(x.n, k) <= Val(y.n, k)
    && forall j :: Val(x.m, (k, j)) <= Val(y.m, (k, j))
  }

  ghost predicate IsMax(z: BState, x: BState, y: BState) {
    && (forall k :: Val(z.p, k) == Max(Val(x.p, k), Val(y.p, k)))
    && (forall k :: Val(z.n, k) == Max(Val(x.n, k), Val(y.n, k)))
    && (forall e :: Val(z.m, e) == Max(Val(x.m, e), Val(y.m, e)))
  }

  lemma JoinVals(x: BState, y: BState)
    requires NonNegative(x) && NonNegative(y)
    ensures NonNegative(BJoin(x, y))
    ensures IsMax(BJoin(x, y), x, y)
  {
  }

  // With the same own entries, knowing more only adds incoming rights.
  lemma RightsGrow(x: BState, y: BState, ids: set<Id>, k: Id)
    requires Within(x, ids) && Within(y, ids)
    requires OwnEq(x, y, k) && Below(x, y)
    ensures Rights(x, k) <= Rights(y, k)
  {
    InflowOver(x.m, ids, k);
    InflowOver(y.m, ids, k);
    OutflowOver(x.m, ids, k);
    OutflowOver(y.m, ids, k);
    SumMonotone(ids, InTo(x.m, k), InTo(y.m, k));
    SumCongruent(ids, OutOf(x.m, k), OutOf(y.m, k));
  }

  // ---------------------------------------------------------------- one mutation

  datatype Op = Inc(q: nat) | Dec(q: nat) | Mv(to: Id, q: nat)

  ghost function Mutated(x: BState, i: Id, op: Op): BState {
    match op
    case Inc(q) => Incremented(x, i, q)
    case Dec(q) => Decremented(Touched(x, i), i, q)
    case Mv(to, q) => Moved(Touched(x, i), i, to, q)
  }

  ghost function DeltaOf(x: BState, i: Id, op: Op): BState {
    match op
    case Inc(q) => IncDelta(x, i, q)
    case Dec(q) => DecDelta(x, i, q)
    case Mv(to, q) => MvDelta(x, i, to, q)
  }

  ghost predicate OpOk(op: Op, ids: set<Id>) {
    op.Mv? ==> op.to in ids
  }

  // What a mutation of replica i may change, and what its delta carries.
  ghost predicate LocalChange(x: BState, y: BState, d: BState, i: Id, ids: set<Id>) {
    && Within(y, ids) && Within(d, ids)
    && Below(x, y)
    && (forall k | k != i :: OwnEq(x, y, k) && OwnBelow(d, B_EMPTY, k))
    && OwnBelow(d, y, i)
  }

  lemma IncIsLocal(x: BState, i: Id, q: nat, ids: set<Id>)
    requires Within(x, ids) && i in ids
    ensures LocalChange(x, Incremented(x, i, q), IncDelta(x, i, q), i, ids)
  {
  }

  lemma NothingIsLocal(x: BState, i: Id, ids: set<Id>)
    requires Within(x, ids)
    ensures LocalChange(x, x, B_EMPTY, i, ids)
  {
  }

  lemma SetNIsLocal(x: BState, i: Id, v: int, ids: set<Id>)
    requires Within(x, ids) && i in ids && v >= Val(x.n, i)
    ensures LocalChange(x, x.(n := x.n[i := v]), BState(map[], map[i := v], map[]), i, ids)
  {
    assert v >= 0;
  }

  lemma SetMIsLocal(x: BState, i: Id, to: Id, v: int, ids: set<Id>)
    requires Within(x, ids) && i in ids && to in ids && v >= Val(x.m, (i, to))
    ensures LocalChange(x, x.(m := x.m[(i, to) := v]), BState(map[], map[], map[(i, to) := v]), i, ids)
  {
    assert v >= 0;
  }

  lemma TouchedIsWithin(x: BState, i: Id, ids: set<Id>)
    requires Within(x, ids) && i in ids
    ensures Within(Touched(x, i), ids)
  {
  }

  lemma LocalSinceTouched(x: BState, y: BState, d: BState, i: Id, ids: set<Id>)
    requires LocalChange(Touched(x, i), y, d, i, ids)
    ensures LocalChange(x, y, d, i, ids)
  {
    var t := Touched(x, i);
    assert SameEntries(x, t) by { TouchedReadsSame(x, i); }
    assert Below(x, y);
    forall k | k != i
      ensures OwnEq(x, y, k)
    {
      assert OwnEq(t, y, k);
    }
  }

  lemma DecIsLocal(x: BState, i: Id, q: nat, ids: set<Id>)
    requires Within(x, ids) && i in ids
    ensures LocalChange(x, Decremented(Touched(x, i), i, q), DecDelta(x, i, q), i, ids)
  {
    hide LocalChange, Within, Rights, Touched;
    var t := Touched(x, i);
    SameRights(x, i);
    TouchedIsWithin(x, i, ids);
    if q <= Rights(x, i) {
      SetNIsLocal(t, i, Val(t.n, i) + q, ids);
    } else {
      NothingIsLocal(t, i, ids);
    }
    LocalSinceTouched(x, Decremented(t, i, q), DecDelta(x, i, q), i, ids);
  }

  lemma MvIsLocal(x: BState, i: Id, to: Id, q: nat, ids: set<Id>)
    requires Within(x, ids) && i in ids && to in ids
    ensures LocalChange(x, Moved(Touched(x, i), i, to, q), MvDelta(x, i, to, q), i, ids)
  {
    hide LocalChange, Within, Rights, Touched;
    var t := Touched(x, i);
    SameRights(x, i);
    TouchedIsWithin(x, i, ids);
    if q <= Rights(x, i) {
      SetMIsLocal(t, i, to, Val(t.m, (i, to)) + q, ids);
    } else {
      NothingIsLocal(t, i, ids);
    }
    LocalSinceTouched(x, Moved(t, i, to, q), MvDelta(x, i, to, q), i, ids);
  }

  lemma MutationIsLocal(x: BState, i: Id, op: Op, ids: set<Id>)
    requires Within(x, ids) && i in ids && OpOk(op, ids)
    ensures LocalChange(x, Mutated(x, i, op), DeltaOf(x, i, op), i, ids)
  {
    match op
    case Inc(q) => IncIsLocal(x, i, q, ids);
    case Dec(q) => DecIsLocal(x, i, q, ids);
    case Mv(to, q) => MvIsLocal(x, i, to, q, ids);
  }

  // The local check keeps the local capacity from going negative.
  lemma MutatedKeepsCapacity(x: BState, i: Id, op: Op, ids: set<Id>)
    requires Within(x, ids) && i in ids && OpOk(op, ids)
    requires Rights(x, i) >= 0
    ensures Rights(Mutated(x, i, op), i) >= 0
  {
    SameRights(x, i);
    match op
    case Inc(_) =>
    case Dec(q) => DecRights(Touched(x, i), i, q);
    case Mv(to, q) => MvRights(Touched(x, i), i, to, q);
  }

  // ---------------------------------------------------------------- joins

  // Of two anchors of k the later one is the anchor of the join: k's own snapshots are ordered.
  lemma JoinTakesLater(x: BState, y: BState, z: BState, a: BState, b: BState, k: Id)
    requires IsMax(z, x, y)
    requires OwnEq(x, a, k) && OwnEq(y, b, k) && Below(b, y) && Below(a, b)
    ensures OwnEq(z, b, k) && Below(b, z)
  {
    forall j
      ensures Val(z.m, (k, j)) == Val(b.m, (k, j))
    {
      assert Val(a.m, (k, j)) <= Val(b.m, (k, j));
    }
  }

  lemma MaxIsSymmetric(z: BState, x: BState, y: BState)
    requires IsMax(z, x, y)
    ensures IsMax(z, y, x)
  {
  }

  lemma JoinIsLocal(x: BState, y: BState, i: Id, ids: set<Id>)
    requires Within(x, ids) && Within(y, ids)
    requires OwnBelow(y, x, i)
    ensures Within(BJoin(x, y), ids) && OwnEq(x, BJoin(x, y), i)
    ensures Below(x, BJoin(x, y)) && Below(y, BJoin(x, y))
  {
    JoinVals(x, y);
  }

  lemma NonNegativeSum(s: set<Id>, f: Id -> int)
    requires forall i | i in s :: f(i) >= 0
    ensures Sum(s, f) >= 0
  {
    var zero: Id -> int := i => 0;
    SumZero(s, zero);
    SumMonotone(s, zero, f);
  }

  // ---------------------------------------------------------------- runs

  // The network keeps every delta, state and join of them that was ever sent.
  datatype Sys = Sys(reps: map<Id, BState>, net: seq<BState>)

  datatype Act =
    | Change(i: Id, op: Op)
    | Ship(i: Id)
    | Group(x: BState, y: BState)
    | Deliver(i: Id, x: BState)

  ghost predicate Step(s: Sys, a: Act, s': Sys) {
    match a
    case Change(i, op) =>
      && i in s.reps && OpOk(op, s.reps.Keys)
      && s' == Sys(s.reps[i := Mutated(s.reps[i], i, op)], s.net + [DeltaOf(s.reps[i], i, op)])
    case Ship(i) => i in s.reps && s' == s.(net := s.net + [s.reps[i]])
    case Group(x, y) => x in s.net && y in s.net && s' == s.(net := s.net + [BJoin(x, y)])
    case Deliver(i, x) => i in s.reps && x in s.net && s' == s.(reps := s.reps[i := BJoin(s.reps[i], x)])
  }

  ghost predicate Init(s: Sys) {
    s.net == [] && forall i | i in s.reps :: s.reps[i] == B_EMPTY
  }

  ghost predicate Run(states: seq<Sys>, acts: seq<Act>) {
    && |states| == |acts| + 1
    && Init(states[0])
    && forall n | 0 <= n < |acts| :: Step(states[n], acts[n], states[n + 1])
  }

  // Nobody knows more about replica k than k itself.
  ghost predicate Honest(reps: map<Id, BState>, x: BState) {
    Within(x, reps.Keys) && forall k | k in reps :: OwnBelow(x, reps[k], k)
  }

  ghost predicate AllHonest(reps: map<Id, BState>, xs: map<Id, BState>) {
    forall k | k in xs :: Honest(reps, xs[k])
  }

  ghost predicate NetHonest(reps: map<Id, BState>, net: seq<BState>) {
    forall x | x in net :: Honest(reps, x)
  }

  ghost predicate Capable(reps: map<Id, BState>) {
    forall k | k in reps :: Rights(reps[k], k) >= 0
  }

  ghost predicate Inv(s: Sys) {
    AllHonest(s.reps, s.reps) && NetHonest(s.reps, s.net) && Capable(s.reps)
  }

  lemma HonestPut(reps: map<Id, BState>, xs: map<Id, BState>, i: Id, y: BState)
    requires AllHonest(reps, xs) && Honest(reps, y)
    ensures AllHonest(reps, xs[i := y])
  {
    hide Honest;
  }

  lemma HonestSent(reps: map<Id, BState>, net: seq<BState>, d: BState)
    requires NetHonest(reps, net) && Honest(reps, d)
    ensures NetHonest(reps, net + [d])
  {
    hide Honest;
  }

  lemma CapablePut(reps: map<Id, BState>, i: Id, y: BState)
    requires Capable(reps) && Rights(y, i) >= 0
    ensures Capable(reps[i := y])
  {
    hide Rights;
  }

  // Every replica's own entries may only have grown.
  ghost predicate Grown(reps: map<Id, BState>, reps': map<Id, BState>) {
    reps'.Keys == reps.Keys && forall k | k in reps :: OwnBelow(reps[k], reps'[k], k)
  }

  lemma HonestLater(reps: map<Id, BState>, reps': map<Id, BState>, x: BState)
    requires Honest(reps, x) && Grown(reps, reps')
    ensures Honest(reps', x)
  {
    forall k | k in reps'
      ensures OwnBelow(x, reps'[k], k)
    {
      assert OwnBelow(x, reps[k], k) && OwnBelow(reps[k], reps'[k], k);
    }
  }

  // The join of two states that are at most r on k's entries, one of them equal, is r there.
  lemma OwnJoin(x: BState, y: BState, r: BState, k: Id)
    requires NonNegative(x) && NonNegative(y)
    requires OwnBelow(x, r, k) && OwnBelow(y, r, k)
    ensures OwnBelow(BJoin(x, y), r, k)
    ensures OwnEq(x, r, k) || OwnEq(y, r, k) ==> OwnEq(BJoin(x, y), r, k)
  {
    JoinVals(x, y);
  }

  lemma HonestJoin(reps: map<Id, BState>, x: BState, y: BState)
    requires Honest(reps, x) && Honest(reps, y)
    ensures Honest(reps, BJoin(x, y))
  {
    JoinVals(x, y);
    forall k | k in reps
      ensures OwnBelow(BJoin(x, y), reps[k], k)
    {
      OwnJoin(x, y, reps[k], k);
    }
  }

  lemma ChangeIsGrowth(reps: map<Id, BState>, i: Id, y: BState, d: BState)
    requires i in reps && LocalChange(reps[i], y, d, i, reps.Keys)
    ensures Grown(reps, reps[i := y])
  {
    GrownAt(reps, i, y);
  }

  lemma ChangeIsHonest(reps: map<Id, BState>, i: Id, y: BState, d: BState)
    requires i in reps && Honest(reps, reps[i])
    requires forall k | k in reps :: NonNegative(reps[k])
    requires LocalChange(reps[i], y, d, i, reps.Keys)
    ensures Grown(reps, reps[i := y]) && Honest(reps[i := y], y) && Honest(reps[i := y], d)
  {
    ChangeIsGrowth(reps, i, y, d);
    forall k | k in reps
      ensures OwnBelow(y, reps[i := y][k], k)
      ensures OwnBelow(d, reps[i := y][k], k)
    {
      if k != i {
        assert OwnBelow(reps[i], reps[k], k) && OwnEq(reps[i], y, k) && OwnBelow(d, B_EMPTY, k);
      }
    }
  }

  lemma ChangeKeepsInv(s: Sys, i: Id, op: Op, s': Sys)
    requires Inv(s) && Step(s, Change(i, op), s')
    ensures Inv(s')
  {
    var y, d := Mutated(s.reps[i], i, op), DeltaOf(s.reps[i], i, op);
    assert Honest(s.reps, s.reps[i]) && Rights(s.reps[i], i) >= 0;
    assert forall k | k in s.reps :: Honest(s.reps, s.reps[k]) && NonNegative(s.reps[k]);
    hide Mutated, DeltaOf, OwnBelow, NonNegative, Rights, LocalChange, AllHonest, NetHonest, Capable, Grown;
    MutationIsLocal(s.reps[i], i, op, s.reps.Keys);
    MutatedKeepsCapacity(s.reps[i], i, op, s.reps.Keys);
    ChangeIsHonest(s.reps, i, y, d);
    StillHonest(s, s'.reps);
    HonestPut(s'.reps, s.reps, i, y);
    HonestSent(s'.reps, s.net, d);
    CapablePut(s.reps, i, y);
  }

  lemma StillHonest(s: Sys, reps: map<Id, BState>)
    requires Inv(s) && Grown(s.reps, reps)
    ensures AllHonest(reps, s.reps) && NetHonest(reps, s.net)
  {
    hide Honest, Grown;
    forall k | k in s.reps
      ensures Honest(reps, s.reps[k])
    {
      HonestLater(s.reps, reps, s.reps[k]);
    }
    forall x | x in s.net
      ensures Honest(reps, x)
    {
      HonestLater(s.reps, reps, x);
    }
  }

  // Absorbing what nobody but the others wrote leaves the own entries and adds incoming rights.
  lemma AbsorbIsSafe(me: BState, x: BState, i: Id, ids: set<Id>)
    requires Within(me, ids) && Within(x, ids) && OwnBelow(x, me, i)
    ensures Rights(BJoin(me, x), i) >= Rights(me, i)
    ensures OwnBelow(me, BJoin(me, x), i)
  {
    JoinIsLocal(me, x, i, ids);
    RightsGrow(me, BJoin(me, x), ids, i);
  }

  lemma GrownAt(reps: map<Id, BState>, i: Id, z: BState)
    requires i in reps && OwnBelow(reps[i], z, i)
    ensures Grown(reps, reps[i := z])
  {
  }

  lemma DeliverIsSafe(s: Sys, i: Id, x: BState)
    requires Inv(s) && i in s.reps && x in s.net
    ensures var z := BJoin(s.reps[i], x);
            Rights(z, i) >= 0 && Grown(s.reps, s.reps[i := z]) && Honest(s.reps[i := z], z)
  {
    hide BJoin, Rights, OwnBelow, Within, Grown;
    var me, z := s.reps[i], BJoin(s.reps[i], x);
    assert Honest(s.reps, me) && Honest(s.reps, x);
    AbsorbIsSafe(me, x, i, s.reps.Keys);
    GrownAt(s.reps, i, z);
    HonestJoin(s.reps, me, x);
    HonestLater(s.reps, s.reps[i := z], z);
  }

  lemma DeliverKeepsInv(s: Sys, i: Id, x: BState, s': Sys)
    requires Inv(s) && Step(s, Deliver(i, x), s')
    ensures Inv(s')
  {
    hide BJoin, Rights, Honest, Grown, AllHonest, NetHonest, Capable;
    DeliverIsSafe(s, i, x);
    StillHonest(s, s'.reps);
    HonestPut(s'.reps, s.reps, i, BJoin(s.reps[i], x));
    CapablePut(s.reps, i, BJoin(s.reps[i], x));
  }

  lemma StepKeepsInv(s: Sys, a: Act, s': Sys)
    requires Inv(s) && Step(s, a, s')
    ensures Inv(s')
  {
    hide BJoin, Rights, Honest, Mutated, DeltaOf;
    match a
    case Change(i, op) => ChangeKeepsInv(s, i, op, s');
    case Ship(i) => HonestSent(s.reps, s.net, s.reps[i]);
    case Group(x, y) =>
      HonestJoin(s.reps, x, y);
      HonestSent(s.reps, s.net, BJoin(x, y));
    case Deliver(i, x) => DeliverKeepsInv(s, i, x, s');
  }

  lemma InitHasInv(s: Sys)
    requires Init(s)
    ensures Inv(s)
  {
    forall i | i in s.reps
      ensures Rights(B_EMPTY, i) == 0
    {
      SumZero({}, (e: (Id, Id)) => if e.1 == i then Val(B_EMPTY.m, e) else 0);
    }
  }

  lemma {:induction false} RunKeepsInv(states: seq<Sys>, acts: seq<Act>, n: nat)
    requires Run(states, acts) && n < |states|
    ensures Inv(states[n])
  {
    hide Inv, Init, Step;
    if n == 0 {
      InitHasInv(states[0]);
    } else {
      RunKeepsInv(states, acts, n - 1);
      assert Step(states[n - 1], acts[n - 1], states[n - 1 + 1]);
      StepKeepsInv(states[n - 1], acts[n - 1], states[n]);
    }
  }

  // ---------------------------------------------------------------- true rights and true value

  // Each replica's own entries are the truth about it.
  ghost function TrueIn(reps: map<Id, BState>, i: Id): Id -> int {
    (j: Id) => if j in reps then Val(reps[j].m, (j, i)) else 0
  }

  ghost function TrueRights(reps: map<Id, BState>, i: Id): int
    requires i in reps
  {
    Val(reps[i].p, i) - Val(reps[i].n, i) + Sum(reps.Keys, TrueIn(reps, i)) - Sum(reps.Keys, OutOf(reps[i].m, i))
  }

  ghost function TrueCount(reps: map<Id, BState>): Id -> int {
    (i: Id) => if i in reps then Val(reps[i].p, i) - Val(reps[i].n, i) else 0
  }

  ghost function TrueValue(reps: map<Id, BState>): int {
    Sum(reps.Keys, TrueCount(reps))
  }

  ghost function AllTrueRights(reps: map<Id, BState>): Id -> int {
    (i: Id) => if i in reps then TrueRights(reps, i) else 0
  }

  // In every run a replica's local capacity is between zero and its true rights.
  lemma LocalIsSafe(states: seq<Sys>, acts: seq<Act>, n: nat, i: Id)
    requires Run(states, acts) && n < |states| && i in states[n].reps
    ensures 0 <= Rights(states[n].reps[i], i) <= TrueRights(states[n].reps, i)
  {
    RunKeepsInv(states, acts, n);
    CapacityBelowTrue(states[n].reps, i);
  }

  lemma CapacityBelowTrue(reps: map<Id, BState>, i: Id)
    requires i in reps && Honest(reps, reps[i])
    ensures Rights(reps[i], i) <= TrueRights(reps, i)
  {
    InflowOver(reps[i].m, reps.Keys, i);
    OutflowOver(reps[i].m, reps.Keys, i);
    forall j | j in reps.Keys
      ensures InTo(reps[i].m, i)(j) <= TrueIn(reps, i)(j)
    {
      assert OwnBelow(reps[i], reps[j], j);
    }
    SumMonotone(reps.Keys, InTo(reps[i].m, i), TrueIn(reps, i));
  }

  // Transfers only redistribute: true rights add up to the true value, whatever the states are.
  lemma TrueRightsSumToValue(reps: map<Id, BState>)
    ensures Sum(reps.Keys, AllTrueRights(reps)) == TrueValue(reps)
  {
    var ids := reps.Keys;
    var row: Id -> Id -> int := (i: Id) => if i in reps then OutOf(reps[i].m, i) else (j: Id) => 0;
    var col: Id -> Id -> int := (i: Id) => TrueIn(reps, i);
    var sent: Id -> int := (i: Id) => Sum(ids, row(i));
    var got: Id -> int := (i: Id) => Sum(ids, col(i));
    var minusSent: Id -> int := (i: Id) => -Sum(ids, row(i));
    var counted: Id -> int := (i: Id) => TrueCount(reps)(i) + got(i);
    SumSwap(ids, ids, row, col, sent, got);
    SumNegate(ids, sent, minusSent);
    SumAdd(ids, TrueCount(reps), got, counted);
    SumAdd(ids, counted, minusSent, AllTrueRights(reps));
  }

  // The join of the states of all replicas, in any order.
  ghost function JoinAll(reps: map<Id, BState>, s: set<Id>): BState
    requires s <= reps.Keys
    decreases |s|
  {
    if s == {} then B_EMPTY
    else
      var i :| i in s;
      BJoin(reps[i], JoinAll(reps, s - {i}))
  }

  lemma JoinAllStep(reps: map<Id, BState>, s: set<Id>, i: Id, rest: BState)
    requires i in s && s <= reps.Keys
    requires Honest(reps, reps[i]) && Honest(reps, rest)
    requires forall k | k in s && k != i :: OwnEq(rest, reps[k], k)
    ensures Honest(reps, BJoin(reps[i], rest))
    ensures forall k | k in s :: OwnEq(BJoin(reps[i], rest), reps[k], k)
  {
    HonestJoin(reps, reps[i], rest);
    forall k | k in s
      ensures OwnEq(BJoin(reps[i], rest), reps[k], k)
    {
      OwnJoin(reps[i], rest, reps[k], k);
    }
  }

  lemma EmptyIsHonest(reps: map<Id, BState>)
    requires forall i | i in reps :: Honest(reps, reps[i])
    ensures Honest(reps, B_EMPTY)
  {
    forall k | k in reps
      ensures OwnBelow(B_EMPTY, reps[k], k)
    {
      EmptyIsBelow(reps[k], k);
    }
  }

  lemma EmptyIsBelow(x: BState, k: Id)
    requires NonNegative(x)
    ensures OwnBelow(B_EMPTY, x, k)
  {
  }

  lemma {:induction false} JoinAllHonest(reps: map<Id, BState>, s: set<Id>)
    requires s <= reps.Keys
    requires forall i | i in reps :: Honest(reps, reps[i])
    ensures Honest(reps, JoinAll(reps, s))
    ensures forall k | k in s :: OwnEq(JoinAll(reps, s), reps[k], k)
    decreases |s|
  {
    hide Honest, OwnEq, BJoin;
    if s == {} {
      EmptyIsHonest(reps);
    } else {
      var i :| i in s && JoinAll(reps, s) == BJoin(reps[i], JoinAll(reps, s - {i}));
      JoinAllHonest(reps, s - {i});
      JoinAllStep(reps, s, i, JoinAll(reps, s - {i}));
    }
  }

  lemma ReadOfAll(reps: map<Id, BState>, z: BState)
    requires Within(z, reps.Keys)
    requires forall k | k in reps :: OwnEq(z, reps[k], k)
    ensures ReadOf(z) == TrueValue(reps)
  {
    var ids := reps.Keys;
    var p: Id -> int := (i: Id) => Val(z.p, i);
    var m: Id -> int := (i: Id) => Val(z.n, i);
    var minusM: Id -> int := (i: Id) => -Val(z.n, i);
    TotalOver(z.p, ids);
    TotalOver(z.n, ids);
    SumNegate(ids, m, minusM);
    SumAdd(ids, p, minusM, TrueCount(reps));
  }

  // ---------------------------------------------------------------- what was done

  // The amount that replica i's check lets through.
  ghost function Accepted(x: BState, i: Id, q: nat): int {
    if q <= Rights(x, i) then q else 0
  }

  // What replica i's operation adds to the rights of id k, and to the value.
  ghost function Credit(x: BState, i: Id, op: Op, k: Id): int {
    match op
    case Inc(q) => if k == i then q else 0
    case Dec(q) => if k == i then -Accepted(x, i, q) else 0
    case Mv(to, q) => (if k == to then Accepted(x, i, q) else 0) - (if k == i then Accepted(x, i, q) else 0)
  }

  ghost function Worth(x: BState, i: Id, op: Op): int {
    match op
    case Inc(q) => q
    case Dec(q) => -Accepted(x, i, q)
    case Mv(_, _) => 0
  }

  // The account of id k, and that of all together, after the first n acts of a run.
  ghost function Account(states: seq<Sys>, acts: seq<Act>, n: nat, k: Id): int
    requires Run(states, acts) && n < |states|
  {
    if n == 0 then 0
    else
      assert Step(states[n - 1], acts[n - 1], states[n - 1 + 1]);
      var s, a := states[n - 1], acts[n - 1];
      Account(states, acts, n - 1, k) + if a.Change? then Credit(s.reps[a.i], a.i, a.op, k) else 0
  }

  ghost function Balance(states: seq<Sys>, acts: seq<Act>, n: nat): int
    requires Run(states, acts) && n < |states|
  {
    if n == 0 then 0
    else
      assert Step(states[n - 1], acts[n - 1], states[n - 1 + 1]);
      var s, a := states[n - 1], acts[n - 1];
      Balance(states, acts, n - 1) + if a.Change? then Worth(s.reps[a.i], a.i, a.op) else 0
  }

  // What an operation of replica i does to the entries that i itself writes.
  lemma MutatedRow(x: BState, i: Id, op: Op)
    ensures var y := Mutated(x, i, op);
            && Val(y.p, i) - Val(y.n, i) == Val(x.p, i) - Val(x.n, i) + Worth(x, i, op)
            && forall j: Id :: Val(y.m, (i, j)) ==
                 Val(x.m, (i, j)) + if op.Mv? && j == op.to then Accepted(x, i, op.q) else 0
  {
    SameRights(x, i);
    hide Rights;
  }

  // True rights and true value depend on nothing but what the replicas themselves wrote.
  lemma SameOwnSameTruth(reps: map<Id, BState>, reps': map<Id, BState>)
    requires reps'.Keys == reps.Keys && forall k | k in reps :: OwnEq(reps[k], reps'[k], k)
    ensures forall i | i in reps :: TrueRights(reps', i) == TrueRights(reps, i)
    ensures TrueValue(reps') == TrueValue(reps)
  {
    var ids := reps.Keys;
    forall i | i in reps
      ensures TrueRights(reps', i) == TrueRights(reps, i)
    {
      assert OwnEq(reps[i], reps'[i], i);
      forall j | j in ids
        ensures TrueIn(reps, i)(j) == TrueIn(reps', i)(j) && OutOf(reps[i].m, i)(j) == OutOf(reps'[i].m, i)(j)
      {
        assert OwnEq(reps[j], reps'[j], j);
      }
      SumCongruent(ids, TrueIn(reps, i), TrueIn(reps', i));
      SumCongruent(ids, OutOf(reps[i].m, i), OutOf(reps'[i].m, i));
    }
    forall i | i in ids
      ensures TrueCount(reps)(i) == TrueCount(reps')(i)
    {
      assert OwnEq(reps[i], reps'[i], i);
    }
    SumCongruent(ids, TrueCount(reps), TrueCount(reps'));
  }

  lemma ChangeCredits(reps: map<Id, BState>, i: Id, op: Op, k: Id)
    requires i in reps && k in reps && OpOk(op, reps.Keys)
    ensures var reps' := reps[i := Mutated(reps[i], i, op)];
            TrueRights(reps', k) == TrueRights(reps, k) + Credit(reps[i], i, op, k)
  {
    var x, y := reps[i], Mutated(reps[i], i, op);
    hide Mutated, Accepted, Rights, Sum, TrueIn, OutOf;
    MutatedRow(x, i, op);
    assert Val(y.m, (i, k)) == Val(x.m, (i, k)) + if op.Mv? && k == op.to then Accepted(x, i, op.q) else 0;
    hide Val;
    IncomingAfter(reps, i, y, k);
    OutgoingAfter(x, i, op, reps.Keys);
    assert reps[i := y].Keys == reps.Keys && reps[i := y][k] == if k == i then y else reps[k];
  }

  lemma IncomingAfter(reps: map<Id, BState>, i: Id, y: BState, k: Id)
    requires i in reps
    ensures Sum(reps.Keys, TrueIn(reps[i := y], k)) ==
            Sum(reps.Keys, TrueIn(reps, k)) - Val(reps[i].m, (i, k)) + Val(y.m, (i, k))
  {
    SumUpdate(reps.Keys, TrueIn(reps, k), TrueIn(reps[i := y], k), i);
  }

  lemma OutgoingAfter(x: BState, i: Id, op: Op, ids: set<Id>)
    requires OpOk(op, ids)
    ensures Sum(ids, OutOf(Mutated(x, i, op).m, i)) ==
            Sum(ids, OutOf(x.m, i)) + if op.Mv? then Accepted(x, i, op.q) else 0
  {
    var y := Mutated(x, i, op);
    MutatedRow(x, i, op);
    hide Mutated, Accepted;
    if op.Mv? {
      SumUpdate(ids, OutOf(x.m, i), OutOf(y.m, i), op.to);
    } else {
      SumCongruent(ids, OutOf(x.m, i), OutOf(y.m, i));
    }
  }

  lemma ChangeIsWorth(reps: map<Id, BState>, i: Id, op: Op)
    requires i in reps
    ensures TrueValue(reps[i := Mutated(reps[i], i, op)]) == TrueValue(reps) + Worth(reps[i], i, op)
  {
    var y := Mutated(reps[i], i, op);
    MutatedRow(reps[i], i, op);
    hide Mutated, Worth;
    assert reps[i := y].Keys == reps.Keys;
    SumUpdate(reps.Keys, TrueCount(reps), TrueCount(reps[i := y]), i);
  }

  lemma OwnPut(reps: map<Id, BState>, i: Id, y: BState)
    requires i in reps && OwnEq(reps[i], y, i)
    ensures reps[i := y].Keys == reps.Keys && forall k | k in reps :: OwnEq(reps[k], reps[i := y][k], k)
  {
  }

  lemma DeliverKeepsTruth(s: Sys, i: Id, x: BState)
    requires Inv(s) && i in s.reps && x in s.net
    ensures var reps := s.reps[i := BJoin(s.reps[i], x)];
            && (forall k | k in s.reps :: TrueRights(reps, k) == TrueRights(s.reps, k))
            && TrueValue(reps) == TrueValue(s.reps)
  {
    assert Honest(s.reps, s.reps[i]) && Honest(s.reps, x);
    hide Inv, Rights, Within, OwnBelow, BJoin, OwnEq, Below, TrueRights, TrueValue;
    JoinIsLocal(s.reps[i], x, i, s.reps.Keys);
    hide Honest;
    OwnPut(s.reps, i, BJoin(s.reps[i], x));
    SameOwnSameTruth(s.reps, s.reps[i := BJoin(s.reps[i], x)]);
  }

  lemma StepCredits(s: Sys, a: Act, s': Sys, k: Id)
    requires Inv(s) && Step(s, a, s') && k in s.reps
    ensures s'.reps.Keys == s.reps.Keys
    ensures TrueRights(s'.reps, k) == TrueRights(s.reps, k) + if a.Change? then Credit(s.reps[a.i], a.i, a.op, k) else 0
  {
    hide Inv, TrueRights, Credit, Mutated, BJoin;
    if a.Change? {
      ChangeCredits(s.reps, a.i, a.op, k);
    } else if a.Deliver? {
      DeliverKeepsTruth(s, a.i, a.x);
    }
  }

  lemma StepIsWorth(s: Sys, a: Act, s': Sys)
    requires Inv(s) && Step(s, a, s')
    ensures TrueValue(s'.reps) == TrueValue(s.reps) + if a.Change? then Worth(s.reps[a.i], a.i, a.op) else 0
  {
    hide Inv, TrueValue, Worth, Mutated, BJoin;
    if a.Change? {
      ChangeIsWorth(s.reps, a.i, a.op);
    } else if a.Deliver? {
      DeliverKeepsTruth(s, a.i, a.x);
    }
  }

  lemma NothingDoneYet(s: Sys, k: Id)
    requires Init(s)
    ensures k in s.reps ==> TrueRights(s.reps, k) == 0
    ensures TrueValue(s.reps) == 0
  {
    SumZero(s.reps.Keys, TrueIn(s.reps, k));
    SumZero(s.reps.Keys, OutOf(B_EMPTY.m, k));
    SumZero(s.reps.Keys, TrueCount(s.reps));
  }

  // In every run the true rights of an id are what it incremented and was given, less what it
  // decremented and gave away.
  lemma {:induction false} RightsAreTheAccount(states: seq<Sys>, acts: seq<Act>, n: nat, k: Id)
    requires Run(states, acts) && n < |states| && k in states[0].reps
    ensures k in states[n].reps && TrueRights(states[n].reps, k) == Account(states, acts, n, k)
  {
    hide Inv, Init, Step, TrueRights, Credit;
    if n == 0 {
      NothingDoneYet(states[0], k);
    } else {
      RightsAreTheAccount(states, acts, n - 1, k);
      RunKeepsInv(states, acts, n - 1);
      assert Step(states[n - 1], acts[n - 1], states[n - 1 + 1]);
      StepCredits(states[n - 1], acts[n - 1], states[n], k);
    }
  }

  // And the true value is what was incremented less what was decremented; transfers do not matter.
  lemma {:induction false} ValueIsTheBalance(states: seq<Sys>, acts: seq<Act>, n: nat)
    requires Run(states, acts) && n < |states|
    ensures TrueValue(states[n].reps) == Balance(states, acts, n)
  {
    hide Inv, Init, Step, TrueValue, Worth;
    if n == 0 {
      NothingDoneYet(states[0], 0);
    } else {
      ValueIsTheBalance(states, acts, n - 1);
      RunKeepsInv(states, acts, n - 1);
      assert Step(states[n - 1], acts[n - 1], states[n - 1 + 1]);
      StepIsWorth(states[n - 1], acts[n - 1], states[n]);
    }
  }

  // In every run the join of all replicas reads that value, and it is not negative.
  lemma JoinOfAllReadsTrueValue(states: seq<Sys>, acts: seq<Act>, n: nat)
    requires Run(states, acts) && n < |states|
    ensures var reps := states[n].reps;
            ReadOf(JoinAll(reps, reps.Keys)) == TrueValue(reps) == Balance(states, acts, n) >= 0
  {
    var reps := states[n].reps;
    RunKeepsInv(states, acts, n);
    ValueIsTheBalance(states, acts, n);
    JoinAllHonest(reps, reps.Keys);
    ReadOfAll(reps, JoinAll(reps, reps.Keys));
    forall i | i in reps.Keys
      ensures AllTrueRights(reps)(i) >= 0
    {
      CapacityBelowTrue(reps, i);
    }
    TrueRightsSumToValue(reps);
    NonNegativeSum(reps.Keys, AllTrueRights(reps));
  }

  // ---------------------------------------------------------------- what one replica reads

  ghost function News(a: map<Id, int>, b: map<Id, int>): Id -> int {
    k => if k in b then Max(0, Val(b, k) - Val(a, k)) else 0
  }

  // What b adds to the entries of a.
  ghost function Gain(a: map<Id, int>, b: map<Id, int>): int {
    Sum(b.Keys, News(a, b))
  }

  lemma JoinTotal(a: map<Id, int>, b: map<Id, int>)
    ensures Total(JoinMax(a, b)) == Total(a) + Gain(a, b)
  {
    var j, ids := JoinMax(a, b), a.Keys + b.Keys;
    hide Sum;
    TotalOver(a, ids);
    TotalOver(j, ids);
    SumExtend(b.Keys, ids, News(a, b));
    SumAdd(ids, k => Val(a, k), News(a, b), k => Val(j, k));
  }

  // A delivery adds what is new in the packet.
  lemma ReadAfterDelivery(me: BState, x: BState)
    ensures ReadOf(BJoin(me, x)) == ReadOf(me) + Gain(me.p, x.p) - Gain(me.n, x.n)
    ensures ReadOf(BJoin(me, x)) >= 0 <==> Gain(me.n, x.n) <= ReadOf(me) + Gain(me.p, x.p)
  {
    JoinTotal(me.p, x.p);
    JoinTotal(me.n, x.n);
  }

  lemma ReadAfterChange(x: BState, i: Id, op: Op)
    ensures ReadOf(Mutated(x, i, op)) ==
            match op
            case Inc(q) => ReadOf(x) + q
            case Dec(q) => if q <= Rights(x, i) then ReadOf(x) - q else ReadOf(x)
            case Mv(_, _) => ReadOf(x)
  {
    TouchedReadsSame(x, i);
    match op
    case Inc(q) => TotalPut(x.p, i, Val(x.p, i) + q);
    case Dec(q) => DecRights(Touched(x, i), i, q);
    case Mv(to, q) => MvRights(Touched(x, i), i, to, q);
  }

  // What the value read covers: the new decrements of a packet by the value read and the new
  // increments, an accepted decrement by the value read.
  ghost predicate Covered(s: Sys, a: Act) {
    match a
    case Deliver(i, x) =>
      i in s.reps ==> Gain(s.reps[i].n, x.n) <= ReadOf(s.reps[i]) + Gain(s.reps[i].p, x.p)
    case Change(i, op) =>
      i in s.reps && op.Dec? && op.q <= Rights(s.reps[i], i) ==> op.q <= ReadOf(s.reps[i])
    case Ship(_) => true
    case Group(_, _) => true
  }

  ghost predicate NobodyReadsNegative(s: Sys) {
    forall i | i in s.reps :: ReadOf(s.reps[i]) >= 0
  }

  lemma StepReads(s: Sys, a: Act, s': Sys)
    requires Step(s, a, s') && NobodyReadsNegative(s)
    ensures NobodyReadsNegative(s') <==> Covered(s, a)
  {
    hide BJoin, Mutated, DeltaOf, ReadOf, Gain, Rights;
    if a.Change? {
      ReadAfterChange(s.reps[a.i], a.i, a.op);
      assert s'.reps[a.i] == Mutated(s.reps[a.i], a.i, a.op);
    } else if a.Deliver? {
      ReadAfterDelivery(s.reps[a.i], a.x);
      assert s'.reps[a.i] == BJoin(s.reps[a.i], a.x);
    }
  }

  // Exactly when no replica ever reads a negative value: when every step of the run is covered.
  lemma ReadsNonNegativeExactly(states: seq<Sys>, acts: seq<Act>)
    requires Run(states, acts)
    ensures (forall n | 0 <= n < |states| :: NobodyReadsNegative(states[n])) <==>
            forall n | 0 <= n < |acts| :: Covered(states[n], acts[n])
  {
    if forall n | 0 <= n < |acts| :: Covered(states[n], acts[n]) {
      forall n | 0 <= n < |states|
        ensures NobodyReadsNegative(states[n])
      {
        CoveredReads(states, acts, n);
      }
    }
    if forall n | 0 <= n < |states| :: NobodyReadsNegative(states[n]) {
      forall n | 0 <= n < |acts|
        ensures Covered(states[n], acts[n])
      {
        assert NobodyReadsNegative(states[n]) && NobodyReadsNegative(states[n + 1]);
        StepReads(states[n], acts[n], states[n + 1]);
      }
    }
  }

  lemma {:induction false} CoveredReads(states: seq<Sys>, acts: seq<Act>, n: nat)
    requires Run(states, acts) && n < |states|
    requires forall m | 0 <= m < |acts| :: Covered(states[m], acts[m])
    ensures NobodyReadsNegative(states[n])
  {
    if n == 0 {
      TotalSingle<Id>(0, 0);
    } else {
      CoveredReads(states, acts, n - 1);
      assert Step(states[n - 1], acts[n - 1], states[n - 1 + 1]);
      StepReads(states[n - 1], acts[n - 1], states[n]);
    }
  }

  // ---------------------------------------------------------------- causal delivery

  // What x knows about replica k is a state that k has been in, with everything k knew then.
  ghost predicate AnchoredAt(s: Sys, x: BState, k: Id) {
    k in s.reps && OwnEq(x, s.reps[k], k) && Below(s.reps[k], x)
  }

  ghost predicate Anchored(states: seq<Sys>, n: nat, x: BState, k: Id)
    requires n < |states|
  {
    exists w {:trigger states[w]} :: 0 <= w <= n && AnchoredAt(states[w], x, k)
  }

  ghost predicate AnchoredAll(states: seq<Sys>, n: nat, x: BState)
    requires n < |states|
  {
    forall k | k in states[n].reps :: Anchored(states, n, x, k)
  }

  // Up to state n every delivery has left its receiver anchored for every id.
  ghost predicate CausalUpTo(states: seq<Sys>, acts: seq<Act>, n: nat)
    requires n <= |acts| && |states| == |acts| + 1
  {
    forall m | 0 <= m < n && acts[m].Deliver? && acts[m].i in states[m + 1].reps ::
      AnchoredAll(states, m + 1, states[m + 1].reps[acts[m].i])
  }

  lemma BelowSelf(x: BState, k: Id)
    ensures Below(x, x) && OwnEq(x, x, k)
  {
  }

  lemma BelowTransitive(x: BState, y: BState, z: BState)
    requires Below(x, y) && Below(y, z)
    ensures Below(x, z)
  {
  }

  lemma OwnEqTransitive(x: BState, y: BState, z: BState, k: Id)
    requires OwnEq(x, y, k) && OwnEq(x, z, k)
    ensures OwnEq(y, z, k)
  {
  }

  lemma ChangeBelow(s: Sys, i: Id, op: Op)
    requires Inv(s) && i in s.reps && OpOk(op, s.reps.Keys)
    ensures Below(s.reps[i], Mutated(s.reps[i], i, op))
    ensures forall k | k != i :: OwnEq(s.reps[i], Mutated(s.reps[i], i, op), k)
  {
    assert Honest(s.reps, s.reps[i]);
    hide Mutated, DeltaOf, Inv, OwnBelow, Below, OwnEq;
    MutationIsLocal(s.reps[i], i, op, s.reps.Keys);
  }

  lemma DeliveryBelow(s: Sys, i: Id, x: BState)
    requires Inv(s) && i in s.reps && x in s.net
    ensures Below(s.reps[i], BJoin(s.reps[i], x))
  {
    assert Honest(s.reps, s.reps[i]) && Honest(s.reps, x);
    hide BJoin, Inv, Rights, Below, OwnEq;
    JoinIsLocal(s.reps[i], x, i, s.reps.Keys);
  }

  lemma StepBelow(s: Sys, a: Act, s': Sys, k: Id)
    requires Inv(s) && Step(s, a, s') && k in s.reps && k in s'.reps
    ensures Below(s.reps[k], s'.reps[k])
  {
    hide BJoin, Mutated, DeltaOf, Inv, Below;
    BelowSelf(s.reps[k], k);
    match a
    case Change(i, op) => ChangeBelow(s, i, op);
    case Deliver(i, x) => DeliveryBelow(s, i, x);
    case Ship(_) =>
    case Group(_, _) =>
  }

  lemma {:induction false} SameReplicas(states: seq<Sys>, acts: seq<Act>, w: nat, n: nat)
    requires Run(states, acts) && w <= n < |states|
    ensures states[n].reps.Keys == states[w].reps.Keys
  {
    if w < n {
      SameReplicas(states, acts, w, n - 1);
      assert Step(states[n - 1], acts[n - 1], states[n - 1 + 1]);
    }
  }

  // A replica's own snapshots are ordered.
  lemma {:induction false} SnapshotsAscend(states: seq<Sys>, acts: seq<Act>, w: nat, n: nat, k: Id)
    requires Run(states, acts) && w <= n < |states| && k in states[w].reps
    ensures k in states[n].reps && Below(states[w].reps[k], states[n].reps[k])
  {
    hide Below, Inv, Step;
    SameReplicas(states, acts, w, n);
    if w == n {
      BelowSelf(states[w].reps[k], k);
    } else {
      SnapshotsAscend(states, acts, w, n - 1, k);
      RunKeepsInv(states, acts, n - 1);
      SameReplicas(states, acts, w, n - 1);
      StepBelow(states[n - 1], acts[n - 1], states[n], k);
      BelowTransitive(states[w].reps[k], states[n - 1].reps[k], states[n].reps[k]);
    }
  }

  lemma ChangedStaysAnchored(s: Sys, x: BState, y: BState, k: Id)
    requires AnchoredAt(s, x, k) && OwnEq(x, y, k) && Below(x, y)
    ensures AnchoredAt(s, y, k)
  {
    BelowTransitive(s.reps[k], x, y);
    OwnEqTransitive(x, y, s.reps[k], k);
  }

  // A replica's own changes keep it anchored, for its own id in its new state.
  lemma ChangeStaysAnchored(states: seq<Sys>, acts: seq<Act>, n: nat, k: Id)
    requires Run(states, acts) && n < |acts| && acts[n].Change? && k in states[n].reps
    requires acts[n].i in states[n].reps && acts[n].i in states[n + 1].reps
    requires Anchored(states, n, states[n].reps[acts[n].i], k)
    ensures Anchored(states, n + 1, states[n + 1].reps[acts[n].i], k)
  {
    var i := acts[n].i;
    RunKeepsInv(states, acts, n);
    assert Step(states[n], acts[n], states[n + 1]);
    var x, y := states[n].reps[i], states[n + 1].reps[i];
    hide Inv, OwnEq, Below, Mutated, DeltaOf, Run;
    ChangeBelow(states[n], i, acts[n].op);
    if k == i {
      BelowSelf(y, k);
      assert AnchoredAt(states[n + 1], y, k);
    } else {
      var w :| 0 <= w <= n && AnchoredAt(states[w], x, k);
      ChangedStaysAnchored(states[w], x, y, k);
      assert AnchoredAt(states[w], y, k);
    }
  }

  lemma AnchoredLater(states: seq<Sys>, n: nat, m: nat, x: BState, k: Id)
    requires n <= m < |states| && Anchored(states, n, x, k)
    ensures Anchored(states, m, x, k)
  {
    var w :| 0 <= w <= n && AnchoredAt(states[w], x, k);
    assert AnchoredAt(states[w], x, k);
  }

  lemma {:induction false} CausalStaysAnchored(states: seq<Sys>, acts: seq<Act>, n: nat, i: Id)
    requires Run(states, acts) && n < |states| && i in states[n].reps && CausalUpTo(states, acts, n)
    ensures AnchoredAll(states, n, states[n].reps[i])
  {
    hide OwnEq, Below, Mutated, DeltaOf, BJoin, AnchoredAt;
    if n == 0 {
      forall k | k in states[0].reps
        ensures Anchored(states, 0, states[0].reps[i], k)
      {
        EmptyIsAnchored(states[0], i, k);
        assert AnchoredAt(states[0], states[0].reps[i], k);
      }
    } else {
      SameReplicas(states, acts, n - 1, n);
      assert Step(states[n - 1], acts[n - 1], states[n - 1 + 1]);
      CausalStaysAnchored(states, acts, n - 1, i);
      if !(acts[n - 1].Deliver? && acts[n - 1].i == i) {
        forall k | k in states[n].reps
          ensures Anchored(states, n, states[n].reps[i], k)
        {
          if acts[n - 1].Change? && acts[n - 1].i == i {
            ChangeStaysAnchored(states, acts, n - 1, k);
          } else {
            AnchoredLater(states, n - 1, n, states[n - 1].reps[i], k);
          }
        }
      }
    }
  }

  lemma EmptyIsAnchored(s: Sys, i: Id, k: Id)
    requires Init(s) && i in s.reps && k in s.reps
    ensures AnchoredAt(s, s.reps[i], k)
  {
    BelowSelf(B_EMPTY, k);
  }

  lemma AnchoredRights(states: seq<Sys>, acts: seq<Act>, n: nat, x: BState, k: Id)
    requires Run(states, acts) && n < |states| && k in states[n].reps
    requires Within(x, states[n].reps.Keys) && Anchored(states, n, x, k)
    ensures Rights(x, k) >= 0
  {
    var w :| 0 <= w <= n && AnchoredAt(states[w], x, k);
    SameReplicas(states, acts, w, n);
    RunKeepsInv(states, acts, w);
    assert Honest(states[w].reps, states[w].reps[k]);
    var own, ids := states[w].reps[k], states[n].reps.Keys;
    assert Rights(own, k) >= 0 && Within(own, ids);
    assert OwnEq(x, own, k) && Below(own, x);
    hide Rights, Within, Below, Inv, Honest, Run;
    OwnEqSymmetric(x, own, k);
    RightsGrow(own, x, ids, k);
  }

  lemma OwnEqSymmetric(x: BState, y: BState, k: Id)
    requires OwnEq(x, y, k)
    ensures OwnEq(y, x, k)
  {
  }

  // If every delivery leaves its receiver anchored for every id, as causal delivery does, then in
  // every state of every replica the rights derived for any id are not negative, and neither is the
  // value read.
  lemma CausalNeverOverdraws(states: seq<Sys>, acts: seq<Act>, n: nat, i: Id, k: Id)
    requires Run(states, acts) && n < |states| && CausalUpTo(states, acts, n)
    requires i in states[n].reps && k in states[n].reps
    ensures Rights(states[n].reps[i], k) >= 0
    ensures ReadOf(states[n].reps[i]) >= 0
  {
    var x, ids := states[n].reps[i], states[n].reps.Keys;
    RunKeepsInv(states, acts, n);
    assert Honest(states[n].reps, x) && Within(x, ids);
    CausalStaysAnchored(states, acts, n, i);
    hide Within, Rights, ReadOf, Inv, Run, Anchored;
    forall j | j in ids
      ensures Rights(x, j) >= 0
    {
      AnchoredRights(states, acts, n, x, j);
    }
    ReadIsSumOfRights(x, ids);
    NonNegativeSum(ids, RightsIn(x));
  }

  // ---- which packets leave their receiver anchored

  lemma AnchoredJoin(states: seq<Sys>, acts: seq<Act>, n: nat, x: BState, y: BState, k: Id)
    requires Run(states, acts) && n < |states| && NonNegative(x) && NonNegative(y)
    requires Anchored(states, n, x, k) && Anchored(states, n, y, k)
    ensures Anchored(states, n, BJoin(x, y), k)
  {
    var v :| 0 <= v <= n && AnchoredAt(states[v], x, k);
    var w :| 0 <= w <= n && AnchoredAt(states[w], y, k);
    JoinVals(x, y);
    hide OwnEq, Below, BJoin, IsMax, NonNegative, Run;
    if v <= w {
      SnapshotsAscend(states, acts, v, w, k);
      JoinTakesLater(x, y, BJoin(x, y), states[v].reps[k], states[w].reps[k], k);
      assert AnchoredAt(states[w], BJoin(x, y), k);
    } else {
      SnapshotsAscend(states, acts, w, v, k);
      MaxIsSymmetric(BJoin(x, y), x, y);
      JoinTakesLater(y, x, BJoin(x, y), states[w].reps[k], states[v].reps[k], k);
      assert AnchoredAt(states[v], BJoin(x, y), k);
    }
  }

  lemma JoinStaysAnchored(states: seq<Sys>, acts: seq<Act>, n: nat, me: BState, x: BState)
    requires Run(states, acts) && n < |states| && NonNegative(me) && NonNegative(x)
    requires AnchoredAll(states, n, me) && AnchoredAll(states, n, x)
    ensures AnchoredAll(states, n, BJoin(me, x))
  {
    hide NonNegative, BJoin, Run, Anchored;
    forall k | k in states[n].reps
      ensures Anchored(states, n, BJoin(me, x), k)
    {
      AnchoredJoin(states, acts, n, me, x, k);
    }
  }

  lemma AllAnchoredLater(states: seq<Sys>, n: nat, m: nat, x: BState)
    requires n <= m < |states| && AnchoredAll(states, n, x) && states[m].reps.Keys == states[n].reps.Keys
    ensures AnchoredAll(states, m, x)
  {
    hide Anchored;
    forall k | k in states[m].reps
      ensures Anchored(states, m, x, k)
    {
      AnchoredLater(states, n, m, x, k);
    }
  }

  lemma BothNonNegative(s: Sys, i: Id, x: BState)
    requires Inv(s) && i in s.reps && x in s.net
    ensures NonNegative(s.reps[i]) && NonNegative(x)
  {
    hide OwnBelow, Rights;
    assert Honest(s.reps, s.reps[i]) && Honest(s.reps, x);
  }

  lemma Delivered(states: seq<Sys>, acts: seq<Act>, n: nat)
    requires Run(states, acts) && n < |acts| && acts[n].Deliver?
    ensures acts[n].i in states[n].reps && acts[n].i in states[n + 1].reps
    ensures states[n + 1].reps.Keys == states[n].reps.Keys
    ensures states[n + 1].reps[acts[n].i] == BJoin(states[n].reps[acts[n].i], acts[n].x)
    ensures NonNegative(states[n].reps[acts[n].i]) && NonNegative(acts[n].x)
  {
    assert Step(states[n], acts[n], states[n + 1]);
    hide BJoin, Inv;
    RunKeepsInv(states, acts, n);
    BothNonNegative(states[n], acts[n].i, acts[n].x);
  }

  lemma CausalOneMore(states: seq<Sys>, acts: seq<Act>, n: nat)
    requires |states| == |acts| + 1 && n < |acts| && CausalUpTo(states, acts, n)
    requires acts[n].Deliver? && acts[n].i in states[n + 1].reps ==>
               AnchoredAll(states, n + 1, states[n + 1].reps[acts[n].i])
    ensures CausalUpTo(states, acts, n + 1)
  {
    hide AnchoredAll;
  }

  // A packet that is anchored itself leaves an anchored receiver anchored.
  lemma AnchoredPacketIsCausal(states: seq<Sys>, acts: seq<Act>, n: nat)
    requires Run(states, acts) && n < |acts| && acts[n].Deliver? && CausalUpTo(states, acts, n)
    requires AnchoredAll(states, n, acts[n].x)
    ensures CausalUpTo(states, acts, n + 1)
  {
    assert |states| == |acts| + 1;
    hide NonNegative, BJoin, Run, AnchoredAll, CausalUpTo;
    Delivered(states, acts, n);
    var i, x := acts[n].i, acts[n].x;
    var me := states[n].reps[i];
    CausalStaysAnchored(states, acts, n, i);
    JoinStaysAnchored(states, acts, n, me, x);
    AllAnchoredLater(states, n, n + 1, BJoin(me, x));
    CausalOneMore(states, acts, n);
  }

  // Whole-state shipping: what is delivered is a state that some replica has been in, however long
  // ago and however often.
  ghost predicate WholeStates(states: seq<Sys>, acts: seq<Act>) {
    |states| == |acts| + 1 &&
    forall m | 0 <= m < |acts| && acts[m].Deliver? :: WasState(states, m, acts[m].x)
  }

  ghost predicate WasState(states: seq<Sys>, n: nat, x: BState)
    requires n < |states|
  {
    exists w, j :: 0 <= w <= n && j in states[w].reps && states[w].reps[j] == x
  }

  lemma PastStateIsAnchored(states: seq<Sys>, acts: seq<Act>, n: nat, x: BState)
    requires Run(states, acts) && n < |states| && CausalUpTo(states, acts, n) && WasState(states, n, x)
    ensures AnchoredAll(states, n, x)
  {
    var w, j :| 0 <= w <= n && j in states[w].reps && states[w].reps[j] == x;
    assert CausalUpTo(states, acts, w);
    hide Run, AnchoredAll, CausalUpTo;
    CausalStaysAnchored(states, acts, w, j);
    SameReplicas(states, acts, w, n);
    AllAnchoredLater(states, w, n, x);
  }

  lemma {:induction false} WholeStatesAreCausal(states: seq<Sys>, acts: seq<Act>, n: nat)
    requires Run(states, acts) && WholeStates(states, acts) && n < |states|
    ensures CausalUpTo(states, acts, n)
  {
    if n > 0 {
      WholeStatesAreCausal(states, acts, n - 1);
      if acts[n - 1].Deliver? {
        assert WasState(states, n - 1, acts[n - 1].x);
        PastStateIsAnchored(states, acts, n - 1, acts[n - 1].x);
        AnchoredPacketIsCausal(states, acts, n - 1);
      }
    }
  }

  // So if replicas ship only whole states, stale or repeated ones too, nobody overdraws.
  lemma WholeStatesNeverOverdraw(states: seq<Sys>, acts: seq<Act>, n: nat, i: Id, k: Id)
    requires Run(states, acts) && WholeStates(states, acts) && n < |states|
    requires i in states[n].reps && k in states[n].reps
    ensures Rights(states[n].reps[i], k) >= 0
    ensures ReadOf(states[n].reps[i]) >= 0
  {
    WholeStatesAreCausal(states, acts, n);
    CausalNeverOverdraws(states, acts, n, i, k);
  }

  // The states of a run in which a replica receives a decrement without the increment that paid for it.
  lemma SpentStates(inc: BState, dec: BState, paid: BState)
    requires inc == BState(map[0 := 1], map[], map[])
    requires dec == BState(map[0 := 1], map[0 := 1], map[])
    requires paid == BState(map[], map[0 := 1], map[])
    ensures Mutated(inc, 0, Dec(1)) == dec && DeltaOf(inc, 0, Dec(1)) == paid
  {
    NoFlows(inc, 0);
    TouchedReadsSame(inc, 0);
    hide Rights;
    var t := Touched(inc, 0);
    assert t == BState(map[0 := 1], map[0 := 0], map[]);
    assert t.n[0 := 1] == map[0 := 1];
  }

  lemma UnpaidStates(inc: BState, paid: BState)
    requires inc == BState(map[0 := 1], map[], map[])
    requires paid == BState(map[], map[0 := 1], map[])
    ensures Mutated(B_EMPTY, 0, Inc(1)) == inc == DeltaOf(B_EMPTY, 0, Inc(1))
    ensures BJoin(B_EMPTY, paid) == paid
    ensures ReadOf(paid) == -1
  {
    TotalSingle<Id>(0, 1);
    JoinMaxEntry<Id>(map[], 0, 1);
    GmapJoinEntry<(Id, Id)>(map[], (0, 0), 0);
  }

  // A single replica may still read a negative value when deltas travel alone.
  lemma DeltasCanReadNegative()
    ensures exists states: seq<Sys>, acts: seq<Act> ::
              Run(states, acts) && |states| == 4 && 1 in states[3].reps && ReadOf(states[3].reps[1]) < 0
  {
    hide Mutated, DeltaOf, BJoin, ReadOf;
    var inc := BState(map[0 := 1], map[], map[]);
    var dec := BState(map[0 := 1], map[0 := 1], map[]);
    var paid := BState(map[], map[0 := 1], map[]);
    SpentStates(inc, dec, paid);
    UnpaidStates(inc, paid);
    var s0 := Sys(map[0 := B_EMPTY, 1 := B_EMPTY], []);
    var s1 := Sys(map[0 := inc, 1 := B_EMPTY], [inc]);
    var s2 := Sys(map[0 := dec, 1 := B_EMPTY], [inc, paid]);
    var s3 := Sys(map[0 := dec, 1 := paid], [inc, paid]);
    assert Step(s0, Change(0, Inc(1)), s1);
    assert Step(s1, Change(0, Dec(1)), s2);
    assert Step(s2, Deliver(1, paid), s3);
    var states, acts := [s0, s1, s2, s3], [Change(0, Inc(1)), Change(0, Dec(1)), Deliver(1, paid)];
    assert Run(states, acts);
  }

  lemma NoFlows(x: BState, i: Id)
    requires x.m == map[]
    ensures Rights(x, i) == Val(x.p, i) - Val(x.n, i)
  {
    SumZero({}, (e: (Id, Id)) => if e.1 == i then Val(x.m, e) else 0);
    SumZero({}, (e: (Id, Id)) => if e.0 == i then Val(x.m, e) else 0);
  }
}

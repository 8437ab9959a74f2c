// Grow-only counters and the bounded counter built from two of them plus a map of transfers.
module Counters {
  import opened Basics
  import opened Sums

  type Id = nat

  // The ids of n replicas.
  ghost function Ids(n: nat): (ids: set<Id>)
    ensures forall i: Id :: i in ids <==> i < n
  {
    if n == 0 then {} else Ids(n - 1) + {n - 1}
  }

  // ---------------------------------------------------------------- grow-only counter

  // m[k] = max(o.m[k], m[k]) for every k of the other map, an absent m[k] counting as zero.
  function JoinMax<K>(a: map<K, int>, b: map<K, int>): map<K, int> {
    map k | k in a.Keys + b.Keys :: if k in b then Max(b[k], Val(a, k)) else a[k]
  }

  class GCounter<K(==,!new)> {
    var m: map<K, int>
    const id: K

    constructor (a: K)
      ensures m == map[] && id == a
    {
      m, id := map[], a;
    }

    // A counter that only carries entries: a delta, or what came out of a packet.
    constructor Delta(entries: map<K, int>, a: K)
      ensures m == entries && id == a
    {
      m, id := entries, a;
    }

    method Inc(tosum: int) returns (res: GCounter<K>)
      modifies this
      ensures m == old(m)[id := Val(old(m), id) + tosum]
      ensures fresh(res) && res.m == map[id := Val(old(m), id) + tosum]
      ensures m == JoinMax(old(m), res.m) <==> tosum >= 0
    {
      JoinMaxEntry(m, id, Val(m, id) + tosum);
      m := m[id := (if id in m then m[id] else 0) + tosum];
      res := new GCounter.Delta(map[id := m[id]], id);
    }

    // Reading the own entry creates it when it is absent.
    method Local() returns (res: int)
      modifies this
      ensures res == Val(old(m), id)
      ensures m == old(m)[id := res]
    {
      if id !in m {
        m := m[id := 0];
      }
      res := m[id];
    }

    method Read() returns (res: int)
      ensures res == Total(m)
    {
      res := 0;
      var rest := m.Keys;
      var entries := m;
      ghost var f := k => Val(entries, k);
      while rest != {}
        invariant rest <= m.Keys
        invariant res == Sum(m.Keys, f) - Sum(rest, f)
        decreases rest
      {
        var k :| k in rest;
        SumRemove(rest, f, k);
        res := res + m[k];
        rest := rest - {k};
      }
    }

    method Join(o: GCounter<K>)
      modifies this
      ensures m == JoinMax(old(m), old(o.m))
    {
      var theirs := o.m;
      var rest := theirs.Keys;
      while rest != {}
        invariant rest <= theirs.Keys
        invariant m == JoinMax(old(m), map k | k in theirs && k !in rest :: theirs[k])
        decreases rest
      {
        var k :| k in rest;
        m := m[k := Max(theirs[k], if k in m then m[k] else 0)];
        rest := rest - {k};
      }
      assert theirs == map k | k in theirs && k !in rest :: theirs[k];
    }
  }

  // ---------------------------------------------------------------- bounded counter, as values

  // p and n: increments and decrements by replica; m: rights moved, by (from, to).
  datatype BState = BState(p: map<Id, int>, n: map<Id, int>, m: map<(Id, Id), int>)

  const B_EMPTY: BState := BState(map[], map[], map[])

  // gmap::join copies entries that are only on the other side and joins the rest.
  function GmapJoin<K>(a: map<K, int>, b: map<K, int>): map<K, int> {
    map k | k in a.Keys + b.Keys :: if k in a && k in b then Max(a[k], b[k]) else if k in a then a[k] else b[k]
  }

  function BJoin(x: BState, y: BState): BState {
    BState(JoinMax(x.p, y.p), JoinMax(x.n, y.n), GmapJoin(x.m, y.m))
  }

  ghost function Inflow(m: map<(Id, Id), int>, id: Id): int {
    Sum(m.Keys, (e: (Id, Id)) => if e.1 == id then Val(m, e) else 0)
  }

  ghost function Outflow(m: map<(Id, Id), int>, id: Id): int {
    Sum(m.Keys, (e: (Id, Id)) => if e.0 == id then Val(m, e) else 0)
  }

  // The rights of id as far as state x tells: what local() computes for the replica's own id.
  ghost function Rights(x: BState, id: Id): int {
    Val(x.p, id) - Val(x.n, id) + Inflow(x.m, id) - Outflow(x.m, id)
  }

  ghost function ReadOf(x: BState): int {
    Total(x.p) - Total(x.n)
  }

  ghost function Incremented(x: BState, id: Id, q: int): BState {
    x.(p := x.p[id := Val(x.p, id) + q])
  }

  // The guard of dec and mv is the local capacity.
  ghost function Decremented(x: BState, id: Id, q: int): BState {
    if q <= Rights(x, id) then x.(n := x.n[id := Val(x.n, id) + q]) else x
  }

  ghost function Moved(x: BState, id: Id, to: Id, q: int): BState {
    if q <= Rights(x, id) then x.(m := x.m[(id, to) := Val(x.m, (id, to)) + q]) else x
  }

  ghost function IncDelta(x: BState, id: Id, q: int): BState {
    BState(map[id := Val(x.p, id) + q], map[], map[])
  }

  ghost function DecDelta(x: BState, id: Id, q: int): BState {
    if q <= Rights(x, id) then BState(map[], map[id := Val(x.n, id) + q], map[]) else B_EMPTY
  }

  ghost function MvDelta(x: BState, id: Id, to: Id, q: int): BState {
    if q <= Rights(x, id) then BState(map[], map[], map[(id, to) := Val(x.m, (id, to)) + q]) else B_EMPTY
  }

  // Amounts and entries are not negative.
  ghost predicate NonNegative(x: BState) {
    && (forall k | k in x.p :: x.p[k] >= 0)
    && (forall k | k in x.n :: x.n[k] >= 0)
    && (forall k | k in x.m :: x.m[k] >= 0)
  }

  // Asking for the local value creates the two own entries when they are absent.
  function Touched(x: BState, id: Id): BState {
    BState(x.p[id := Val(x.p, id)], x.n[id := Val(x.n, id)], x.m)
  }

  ghost predicate SameEntries(x: BState, y: BState) {
    && (forall k :: Val(x.p, k) == Val(y.p, k))
    && (forall k :: Val(x.n, k) == Val(y.n, k))
    && x.m == y.m
  }

  lemma TouchedReadsSame(x: BState, id: Id)
    ensures SameEntries(x, Touched(x, id))
    ensures forall k: Id :: Rights(Touched(x, id), k) == Rights(x, k)
    ensures ReadOf(Touched(x, id)) == ReadOf(x)
  {
    TotalTouched(x.p, id);
    TotalTouched(x.n, id);
  }

  lemma SameRights(x: BState, id: Id)
    ensures Rights(Touched(x, id), id) == Rights(x, id)
    ensures Val(Touched(x, id).n, id) == Val(x.n, id) && Touched(x, id).m == x.m
  {
    TouchedReadsSame(x, id);
  }

  lemma TotalTouched(m: map<Id, int>, id: Id)
    ensures Total(m[id := Val(m, id)]) == Total(m)
  {
    var m' := m[id := Val(m, id)];
    TotalOver(m, m'.Keys);
    SumCongruent(m'.Keys, k => Val(m, k), k => Val(m', k));
  }

  lemma JoinMaxEntry<K>(a: map<K, int>, k: K, v: int)
    ensures JoinMax(a, map[k := v]) == a[k := v] <==> v >= Val(a, k)
    ensures JoinMax(a, map[]) == a
  {
    assert JoinMax(a, map[k := v])[k] == Max(v, Val(a, k));
    if v >= Val(a, k) {
      assert JoinMax(a, map[k := v]) == a[k := v];
    }
  }

  lemma GmapJoinEntry<K>(a: map<K, int>, k: K, v: int)
    ensures GmapJoin(a, map[k := v]) == a[k := v] <==> k !in a || v >= a[k]
    ensures GmapJoin(a, map[]) == a
  {
    assert GmapJoin(a, map[k := v])[k] == if k in a then Max(a[k], v) else v;
    if k !in a || v >= a[k] {
      assert GmapJoin(a, map[k := v]) == a[k := v];
    }
  }

  // The delta laws of the three mutators, for any amounts: when exactly each of them holds.
  lemma IncLaw(x: BState, id: Id, q: int)
    ensures Incremented(x, id, q) == BJoin(x, IncDelta(x, id, q)) <==> q >= 0
  {
    JoinMaxEntry(x.p, id, Val(x.p, id) + q);
    JoinMaxEntry(x.n, id, Val(x.n, id));
    GmapJoinEntry(x.m, (id, id), Val(x.m, (id, id)));
  }

  lemma DecLaw(x: BState, id: Id, q: int)
    ensures Decremented(x, id, q) == BJoin(x, DecDelta(x, id, q)) <==> q >= 0 || q > Rights(x, id)
  {
    hide Rights;
    JoinMaxEntry(x.p, id, Val(x.p, id));
    JoinMaxEntry(x.n, id, Val(x.n, id) + q);
    GmapJoinEntry(x.m, (id, id), Val(x.m, (id, id)));
  }

  lemma MvLaw(x: BState, id: Id, to: Id, q: int)
    ensures Moved(x, id, to, q) == BJoin(x, MvDelta(x, id, to, q)) <==>
            q >= 0 || q > Rights(x, id) || (id, to) !in x.m
  {
    hide Rights;
    JoinMaxEntry(x.p, id, Val(x.p, id));
    JoinMaxEntry(x.n, id, Val(x.n, id));
    GmapJoinEntry(x.m, (id, to), Val(x.m, (id, to)) + q);
  }

  // ---------------------------------------------------------------- what the mutators do to rights

  lemma TotalPut(m: map<Id, int>, k: Id, v: int)
    ensures Total(m[k := v]) == Total(m) - Val(m, k) + v
  {
    var m' := m[k := v];
    TotalOver(m, m'.Keys);
    SumUpdate(m'.Keys, j => Val(m, j), j => Val(m', j), k);
  }

  lemma FlowPut(m: map<(Id, Id), int>, e: (Id, Id), v: int, id: Id)
    ensures Inflow(m[e := v], id) == Inflow(m, id) + if e.1 == id then v - Val(m, e) else 0
    ensures Outflow(m[e := v], id) == Outflow(m, id) + if e.0 == id then v - Val(m, e) else 0
  {
    var m' := m[e := v];
    var f := (d: (Id, Id)) => if d.1 == id then Val(m, d) else 0;
    SumExtend(m.Keys, m'.Keys, f);
    SumUpdate(m'.Keys, f, (d: (Id, Id)) => if d.1 == id then Val(m', d) else 0, e);
    var g := (d: (Id, Id)) => if d.0 == id then Val(m, d) else 0;
    SumExtend(m.Keys, m'.Keys, g);
    SumUpdate(m'.Keys, g, (d: (Id, Id)) => if d.0 == id then Val(m', d) else 0, e);
  }

  // An inc adds its amount to the own rights and to the value.
  lemma IncRights(x: BState, id: Id, q: int)
    ensures var y := Incremented(x, id, q);
            Rights(y, id) == Rights(x, id) + q && ReadOf(y) == ReadOf(x) + q
  {
    TotalPut(x.p, id, Val(x.p, id) + q);
  }

  // An accepted dec takes its amount from the own rights and from the value. A negative amount passes
  // the check whenever it is at most the rights, and then adds to both.
  lemma DecRights(x: BState, id: Id, q: int)
    ensures var y := Decremented(x, id, q);
            && Rights(y, id) == Rights(x, id) - (if q <= Rights(x, id) then q else 0)
            && ReadOf(y) == ReadOf(x) - (if q <= Rights(x, id) then q else 0)
            && (ReadOf(y) > ReadOf(x) <==> q < 0 && q <= Rights(x, id))
  {
    TotalPut(x.n, id, Val(x.n, id) + q);
  }

  // An accepted mv takes its amount from the own rights and gives it to another; the value stands. A
  // negative amount takes rights from the other without asking, below zero if need be.
  lemma MvRights(x: BState, id: Id, to: Id, q: int)
    ensures var y, accepted := Moved(x, id, to, q), if q <= Rights(x, id) && to != id then q else 0;
            && Rights(y, id) == Rights(x, id) - accepted
            && (to != id ==> Rights(y, to) == Rights(x, to) + accepted)
            && ReadOf(y) == ReadOf(x)
  {
    var v := Val(x.m, (id, to)) + q;
    FlowPut(x.m, (id, to), v, id);
    FlowPut(x.m, (id, to), v, to);
  }

  // ---------------------------------------------------------------- bounded counter, as an object

  class BCounter {
    const p: GCounter<Id>
    const n: GCounter<Id>
    var m: map<(Id, Id), int>
    const id: Id

    ghost function Value(): BState
      reads this, p, n
    {
      BState(p.m, n.m, m)
    }

    ghost predicate Valid() {
      p != n && p.id == id && n.id == id
    }

    constructor (a: Id)
      ensures Valid() && id == a && Value() == B_EMPTY
      ensures fresh(p) && fresh(n)
    {
      p := new GCounter(a);
      n := new GCounter(a);
      m := map[];
      id := a;
    }

    method Local() returns (res: int)
      requires Valid()
      modifies p, n
      ensures res == Rights(old(Value()), id)
      ensures Value() == Touched(old(Value()), id)
    {
      var inc := p.Local();
      var dec := n.Local();
      res := inc - dec;
      var flows := m;
      var rest := flows.Keys;
      ghost var f := (e: (Id, Id)) => if e.1 == id then Val(flows, e) else 0;
      while rest != {}
        invariant rest <= flows.Keys
        invariant Value() == Touched(old(Value()), id)
        invariant res == inc - dec + Sum(flows.Keys, f) - Sum(rest, f)
        decreases rest
      {
        var e :| e in rest;
        SumRemove(rest, f, e);
        if e.1 == id {
          res := res + flows[e];
        }
        rest := rest - {e};
      }
      ghost var g := (e: (Id, Id)) => if e.0 == id then Val(flows, e) else 0;
      rest := flows.Keys;
      while rest != {}
        invariant rest <= flows.Keys
        invariant Value() == Touched(old(Value()), id)
        invariant res == inc - dec + Sum(flows.Keys, f) - Sum(flows.Keys, g) + Sum(rest, g)
        decreases rest
      {
        var e :| e in rest;
        SumRemove(rest, g, e);
        if e.0 == id {
          res := res - flows[e];
        }
        rest := rest - {e};
      }
    }

    method Read() returns (res: int)
      ensures res == ReadOf(Value())
    {
      var inc := p.Read();
      var dec := n.Read();
      res := inc - dec;
    }

    method Inc(tosum: int) returns (res: BCounter)
      requires Valid()
      modifies p
      ensures Value() == Incremented(old(Value()), id, tosum)
      ensures fresh(res) && res.Value() == IncDelta(old(Value()), id, tosum)
    {
      res := new BCounter(id);
      var d := p.Inc(tosum);
      res.p.m := d.m;
    }

    method Dec(todec: int) returns (res: BCounter)
      requires Valid()
      modifies p, n
      ensures Value() == Decremented(Touched(old(Value()), id), id, todec)
      ensures fresh(res) && res.Value() == DecDelta(old(Value()), id, todec)
    {
      SameRights(Value(), id);
      hide Rights;
      res := new BCounter(id);
      var capacity := Local();
      if todec <= capacity {
        var d := n.Inc(todec);
        res.n.m := d.m;
      }
    }

    method Mv(q: int, to: Id) returns (res: BCounter)
      requires Valid()
      modifies this, p, n
      ensures Value() == Moved(Touched(old(Value()), id), id, to, q)
      ensures fresh(res) && res.Value() == MvDelta(old(Value()), id, to, q)
    {
      SameRights(Value(), id);
      hide Rights;
      res := new BCounter(id);
      var capacity := Local();
      if q <= capacity {
        m := m[(id, to) := (if (id, to) in m then m[(id, to)] else 0) + q];
        res.m := map[(id, to) := m[(id, to)]];
      }
    }

    method JoinFlows(theirs: map<(Id, Id), int>)
      modifies this
      ensures m == GmapJoin(old(m), theirs)
    {
      var rest := theirs.Keys;
      while rest != {}
        invariant rest <= theirs.Keys
        invariant m == GmapJoin(old(m), map e | e in theirs && e !in rest :: theirs[e])
        decreases rest
      {
        var e :| e in rest;
        if e !in m {
          m := m[e := theirs[e]];
        } else {
          m := m[e := Max(m[e], theirs[e])];
        }
        rest := rest - {e};
      }
      assert theirs == map e | e in theirs && e !in rest :: theirs[e];
    }

    method Join(o: BCounter)
      requires Valid() && o.Valid()
      requires this == o || {p, n} !! {o.p, o.n}
      modifies this, p, n
      ensures Value() == BJoin(old(Value()), old(o.Value()))
    {
      p.Join(o.p);
      n.Join(o.n);
      JoinFlows(o.m);
    }
  }
}

// Dot kernels: payloads stored under dots, next to the causal context that says which dots are known.
// A dot that is known but not stored has been removed.
module DotKernels {
  import opened Basics
  import opened DotContexts

  datatype Kernel<T> = Kernel(ds: map<Dot, T>, c: Ctx)

  // A dot survives a join when both sides store it or the side without it has never heard of it.
  predicate Survives<T>(d: Dot, a: map<Dot, T>, ca: Ctx, b: map<Dot, T>, cb: Ctx) {
    (d in a && d in b) || (d in a && !In(cb, d)) || (d in b && !In(ca, d))
  }

  // The payload of a surviving dot; unequal payloads of one dot are merged.
  function Payload<T(==)>(pj: (T, T) -> T, d: Dot, a: map<Dot, T>, b: map<Dot, T>): T
    requires d in a || d in b
  {
    if d !in b then a[d]
    else if d !in a then b[d]
    else if a[d] == b[d] then a[d]
    else pj(a[d], b[d])
  }

  function Merge<T(==)>(pj: (T, T) -> T, a: map<Dot, T>, ca: Ctx, b: map<Dot, T>, cb: Ctx): map<Dot, T> {
    map d | d in a.Keys + b.Keys && Survives(d, a, ca, b, cb) :: Payload(pj, d, a, b)
  }

  function KeepMine<T>(x: T, y: T): T { x }

  function JoinStore<T(==)>(a: map<Dot, T>, ca: Ctx, b: map<Dot, T>, cb: Ctx): map<Dot, T> {
    Merge(KeepMine, a, ca, b, cb)
  }

  ghost function KDeepJoin<T>(pj: (T, T) -> T, x: Kernel<T>, y: Kernel<T>): Kernel<T> {
    Kernel(Merge(pj, x.ds, x.c, y.ds, y.c), CtxJoin(x.c, y.c))
  }

  // The plain join never merges payloads: a dot has one payload wherever it is stored.
  ghost function KJoin<T>(x: Kernel<T>, y: Kernel<T>): Kernel<T> {
    KDeepJoin(KeepMine, x, y)
  }

  ghost predicate Wf<T>(x: Kernel<T>) {
    && Compacted(x.c)
    && forall d | d in x.ds :: In(x.c, d)
  }

  ghost predicate Agree<T>(x: Kernel<T>, y: Kernel<T>) {
    forall d | d in x.ds && d in y.ds :: x.ds[d] == y.ds[d]
  }

  ghost predicate Semilattice<T(!new)>(pj: (T, T) -> T) {
    && (forall x :: pj(x, x) == x)
    && (forall x, y :: pj(x, y) == pj(y, x))
    && (forall x, y, z :: pj(pj(x, y), z) == pj(x, pj(y, z)))
  }

  // ---------------------------------------------------------------- what a kernel says about one dot

  datatype Entry<T> = Entry(payload: Option<T>, known: bool)

  ghost function At<T>(x: Kernel<T>, d: Dot): Entry<T> {
    Entry(if d in x.ds then Some(x.ds[d]) else None, In(x.c, d))
  }

  ghost function JoinEntry<T>(pj: (T, T) -> T, e: Entry<T>, f: Entry<T>): Entry<T> {
    Entry(
      if e.payload.Some? && f.payload.Some? then
        if e.payload == f.payload then e.payload else Some(pj(e.payload.value, f.payload.value))
      else if e.payload.Some? && !f.known then e.payload
      else if f.payload.Some? && !e.known then f.payload
      else None,
      e.known || f.known)
  }

  // Where both sides store a dot under different payloads, the join keeps the own one and the deep
  // join merges the other one into it.
  lemma ClashAt<T>(pj: (T, T) -> T, x: Kernel<T>, y: Kernel<T>, d: Dot)
    requires d in x.ds && d in y.ds && x.ds[d] != y.ds[d]
    ensures d in KJoin(x, y).ds && KJoin(x, y).ds[d] == x.ds[d]
    ensures d in KDeepJoin(pj, x, y).ds && KDeepJoin(pj, x, y).ds[d] == pj(x.ds[d], y.ds[d])
  {
  }

  // The join works dot by dot.
  lemma AtJoin<T>(pj: (T, T) -> T, x: Kernel<T>, y: Kernel<T>, d: Dot)
    ensures At(KDeepJoin(pj, x, y), d) == JoinEntry(pj, At(x, d), At(y, d))
  {
    InCtxJoin(x.c, y.c);
  }

  // Two kernels with compacted contexts that say the same about every dot are the same value.
  lemma SameEverywhere<T>(x: Kernel<T>, y: Kernel<T>)
    requires Compacted(x.c) && Compacted(y.c)
    requires forall d: Dot :: At(x, d) == At(y, d)
    ensures x == y
  {
    assert forall d: Dot :: In(x.c, d) <==> At(x, d).known;
    assert forall d: Dot :: In(y.c, d) <==> At(y, d).known;
    UniqueNormalForm(x.c, y.c);
    assert forall d: Dot :: d in x.ds <==> At(x, d).payload.Some?;
    assert forall d: Dot :: d in y.ds <==> At(y, d).payload.Some?;
    assert forall d | d in x.ds :: x.ds[d] == At(x, d).payload.value && y.ds[d] == At(y, d).payload.value;
    assert x.ds == y.ds;
  }

  // ---------------------------------------------------------------- laws of the joins

  // KDeepJoin needs a payload join that is a semilattice; KJoin needs one payload per dot.

  lemma JoinKeepsWf<T>(pj: (T, T) -> T, x: Kernel<T>, y: Kernel<T>)
    requires Wf(x) && Wf(y)
    ensures Wf(KDeepJoin(pj, x, y))
  {
    InCtxJoin(x.c, y.c);
  }

  lemma JoinIdempotent<T>(pj: (T, T) -> T, x: Kernel<T>)
    requires Wf(x)
    ensures KDeepJoin(pj, x, x) == x
  {
    forall d: Dot
      ensures At(KDeepJoin(pj, x, x), d) == At(x, d)
    {
      AtJoin(pj, x, x, d);
    }
    SameEverywhere(KDeepJoin(pj, x, x), x);
  }

  lemma JoinCommutative<T(!new)>(pj: (T, T) -> T, x: Kernel<T>, y: Kernel<T>)
    requires Wf(x) && Wf(y)
    requires Semilattice(pj) || Agree(x, y)
    ensures KDeepJoin(pj, x, y) == KDeepJoin(pj, y, x)
  {
    JoinKeepsWf(pj, x, y);
    JoinKeepsWf(pj, y, x);
    hide KDeepJoin, Semilattice, JoinEntry;
    forall d: Dot
      ensures At(KDeepJoin(pj, x, y), d) == At(KDeepJoin(pj, y, x), d)
    {
      AtJoin(pj, x, y, d);
      AtJoin(pj, y, x, d);
      assert At(x, d).payload.Some? && At(y, d).payload.Some? ==>
        Semilattice(pj) || At(x, d).payload == At(y, d).payload;
      EntryCommutative(pj, At(x, d), At(y, d));
    }
    SameEverywhere(KDeepJoin(pj, x, y), KDeepJoin(pj, y, x));
  }

  lemma EntryCommutative<T(!new)>(pj: (T, T) -> T, e: Entry<T>, f: Entry<T>)
    requires e.payload.Some? ==> e.known
    requires f.payload.Some? ==> f.known
    requires e.payload.Some? && f.payload.Some? ==> Semilattice(pj) || e.payload == f.payload
    ensures JoinEntry(pj, e, f) == JoinEntry(pj, f, e)
  {
  }

  lemma JoinAssociative<T(!new)>(pj: (T, T) -> T, x: Kernel<T>, y: Kernel<T>, z: Kernel<T>)
    requires Wf(x) && Wf(y) && Wf(z)
    requires Semilattice(pj) || (Agree(x, y) && Agree(y, z) && Agree(x, z))
    ensures KDeepJoin(pj, KDeepJoin(pj, x, y), z) == KDeepJoin(pj, x, KDeepJoin(pj, y, z))
  {
    var xy, yz := KDeepJoin(pj, x, y), KDeepJoin(pj, y, z);
    forall d: Dot
      ensures At(KDeepJoin(pj, xy, z), d) == At(KDeepJoin(pj, x, yz), d)
    {
      AtJoin(pj, x, y, d);
      AtJoin(pj, y, z, d);
      AtJoin(pj, xy, z, d);
      AtJoin(pj, x, yz, d);
      EntryAssociative(pj, At(x, d), At(y, d), At(z, d));
    }
    SameEverywhere(KDeepJoin(pj, xy, z), KDeepJoin(pj, x, yz));
  }

  lemma EntryAssociative<T(!new)>(pj: (T, T) -> T, e: Entry<T>, f: Entry<T>, g: Entry<T>)
    requires e.payload.Some? ==> e.known
    requires f.payload.Some? ==> f.known
    requires g.payload.Some? ==> g.known
    requires Semilattice(pj) ||
             forall p, q | p in {e, f, g} && q in {e, f, g} && p.payload.Some? && q.payload.Some? ::
               p.payload == q.payload
    ensures JoinEntry(pj, JoinEntry(pj, e, f), g) == JoinEntry(pj, e, JoinEntry(pj, f, g))
  {
    if Semilattice(pj) && e.payload.Some? && f.payload.Some? && g.payload.Some? {
      var a, b, c := e.payload.value, f.payload.value, g.payload.value;
      assert pj(a, a) == a && pj(b, b) == b && pj(c, c) == c;
      assert pj(pj(a, b), c) == pj(a, pj(b, c));
      assert JoinEntry(pj, e, f).payload.value == pj(a, b);
      assert JoinEntry(pj, f, g).payload.value == pj(b, c);
      assert pj(pj(a, b), pj(a, b)) == pj(a, b);
    }
  }

  // ---------------------------------------------------------------- mutators on values

  ghost function Empty<T>(): Kernel<T> {
    Kernel(map[], NO_DOTS)
  }

  ghost function Matching<T>(k: Kernel<T>, val: T): set<Dot> {
    set d | d in k.ds && k.ds[d] == val
  }

  // Removed dots stay known.
  ghost function Drop<T>(k: Kernel<T>, s: set<Dot>): Kernel<T> {
    Kernel(k.ds - s, k.c)
  }

  ghost function DropDelta<T>(s: set<Dot>): Kernel<T> {
    Kernel(map[], DotSet(s))
  }

  // std::map::insert leaves an entry that is already there alone.
  ghost function Put<T>(k: Kernel<T>, id: Id, val: T): Kernel<T> {
    var dot := NextDot(k.c, id);
    Kernel(if dot in k.ds then k.ds else k.ds[dot := val], Generated(k.c, id))
  }

  ghost function PutDelta<T>(k: Kernel<T>, id: Id, val: T): Kernel<T> {
    var dot := NextDot(k.c, id);
    Kernel(map[dot := val], DotSet({dot}))
  }

  // The delta of removing the dots s and then adding val under the next dot of id: the types join
  // the deltas of the two.
  ghost function ReplaceDelta<T>(k: Kernel<T>, s: set<Dot>, id: Id, val: T): Kernel<T> {
    KJoin(DropDelta(s), PutDelta(k, id, val))
  }

  lemma DropDeltasJoin<T>(s: set<Dot>, t: set<Dot>)
    ensures KJoin(DropDelta<T>(s), DropDelta(t)) == DropDelta<T>(s + t)
  {
    var l, r := KJoin(DropDelta<T>(s), DropDelta(t)), DropDelta<T>(s + t);
    forall d: Dot
      ensures At(l, d) == At(r, d)
    {
      AtJoin(KeepMine, DropDelta<T>(s), DropDelta(t), d);
    }
    SameEverywhere(l, r);
  }

  // It carries the new dot alone and knows the removed ones as well; but a next dot that is itself
  // among the removed ones counts as removed.
  lemma ReplaceDeltaIsJoin<T>(k: Kernel<T>, s: set<Dot>, id: Id, val: T)
    ensures var dot := NextDot(k.c, id);
            ReplaceDelta(k, s, id, val) == Kernel(if dot in s then map[] else map[dot := val], DotSet(s + {dot}))
  {
    var dot, l := NextDot(k.c, id), ReplaceDelta(k, s, id, val);
    var r: Kernel<T> := Kernel(if dot in s then map[] else map[dot := val], DotSet(s + {dot}));
    forall d: Dot
      ensures At(l, d) == At(r, d)
    {
      AtJoin(KeepMine, DropDelta(s), PutDelta(k, id, val), d);
    }
    SameEverywhere(l, r);
  }

  // The delta law for removals: mutating equals joining the returned delta.
  lemma DropLaw<T>(k: Kernel<T>, s: set<Dot>)
    requires Wf(k) && s <= k.ds.Keys
    ensures Drop(k, s) == KJoin(k, DropDelta(s))
    ensures Wf(Drop(k, s))
  {
    forall d: Dot
      ensures At(Drop(k, s), d) == At(KJoin(k, DropDelta(s)), d)
    {
      AtJoin(KeepMine, k, DropDelta(s), d);
    }
    SameEverywhere(Drop(k, s), KJoin(k, DropDelta(s)));
  }

  // The delta law for removing the dots s and adding val: it needs a valid dot generator.
  lemma ReplaceLaw<T>(k: Kernel<T>, s: set<Dot>, id: Id, val: T)
    requires Wf(k) && OwnCompact(k.c, id) && s <= k.ds.Keys
    ensures Put(Drop(k, s), id, val) == KJoin(k, ReplaceDelta(k, s, id, val))
    ensures Wf(Put(Drop(k, s), id, val)) && OwnCompact(Generated(k.c, id), id)
    ensures NextDot(k.c, id) !in k.ds
  {
    NextDotIsFresh(k.c, id);
    ReplaceDeltaIsJoin(k, s, id, val);
    var after, delta := Put(Drop(k, s), id, val), ReplaceDelta(k, s, id, val);
    forall d: Dot
      ensures At(after, d) == At(KJoin(k, delta), d)
    {
      AtJoin(KeepMine, k, delta, d);
    }
    SameEverywhere(after, KJoin(k, delta));
  }

  ghost predicate SameAt<T>(k: Kernel<T>, s: set<Dot>, id: Id, val: T, d: Dot) {
    At(Put(Drop(k, s), id, val), d) == At(KJoin(k, ReplaceDelta(k, s, id, val)), d)
  }

  lemma ReplacedAt<T>(k: Kernel<T>, s: set<Dot>, id: Id, val: T, d: Dot)
    requires s <= k.ds.Keys && forall e | e in k.ds :: In(k.c, e)
    ensures SameAt(k, s, id, val, d) <==> d != NextDot(k.c, id) || !In(k.c, d) || (d in k.ds && d !in s)
  {
    var delta := ReplaceDelta(k, s, id, val);
    ReplaceDeltaIsJoin(k, s, id, val);
    AtJoin(KeepMine, k, delta, d);
    assert In(delta.c, d) <==> d in s || d == NextDot(k.c, id);
  }

  // Exactly when mutating says the same about every dot as joining the returned delta: when the
  // next dot is unknown, or is stored and not among the removed ones.
  lemma ReplaceLawExactly<T>(k: Kernel<T>, s: set<Dot>, id: Id, val: T)
    requires s <= k.ds.Keys && forall d | d in k.ds :: In(k.c, d)
    ensures var dot := NextDot(k.c, id);
            (forall d: Dot :: At(Put(Drop(k, s), id, val), d) == At(KJoin(k, ReplaceDelta(k, s, id, val)), d)) <==>
            (!In(k.c, dot) || (dot in k.ds && dot !in s))
  {
    var dot := NextDot(k.c, id);
    forall d: Dot
      ensures SameAt(k, s, id, val, d) <==> d != dot || !In(k.c, d) || (d in k.ds && d !in s)
    {
      ReplacedAt(k, s, id, val, d);
    }
    hide KJoin, Put, Drop, ReplaceDelta, In, NextDot;
    assert SameAt(k, s, id, val, dot) <==> !In(k.c, dot) || (dot in k.ds && dot !in s);
    assert forall d: Dot :: SameAt(k, s, id, val, d) <==>
      At(Put(Drop(k, s), id, val), d) == At(KJoin(k, ReplaceDelta(k, s, id, val)), d);
  }

  // Without a valid generator the law does fail. A replica named 0 that absorbs its own second dot
  // and then adds 8 holds a next dot that it knows already; adding 7 keeps that dot here, while a
  // replica that joins the returned delta takes it for removed.
  lemma ReplaceLawNeedsGenerator()
    ensures var k0: Kernel<int> := KJoin(Empty(), Kernel(map[Dot(0, 2) := 7], DotSet({Dot(0, 2)})));
            var k := Put(Drop(k0, Matching(k0, 8)), 0, 8);
            var gone := Matching(k, 7);
            && Wf(k0)
            && At(Put(Drop(k, gone), 0, 7), Dot(0, 2)) == Entry(Some(7), true)
            && At(KJoin(k, ReplaceDelta(k, gone, 0, 7)), Dot(0, 2)) == Entry(None, true)
  {
    var first: Kernel<int> := Kernel(map[Dot(0, 2) := 7], DotSet({Dot(0, 2)}));
    var k0 := KJoin(Empty(), first);
    AbsorbedByEmpty(first, Dot(0, 2));
    var k := Put(Drop(k0, Matching(k0, 8)), 0, 8);
    assert k.ds == map[Dot(0, 2) := 7, Dot(0, 1) := 8];
    assert NextDot(k.c, 0) == Dot(0, 2) && Dot(0, 2) in k.c.dc;
    var gone := Matching(k, 7);
    assert Dot(0, 2) in gone;
    ReplaceDeltaIsJoin(k, gone, 0, 7);
    AtJoin(KeepMine, k, ReplaceDelta(k, gone, 0, 7), Dot(0, 2));
  }

  // An empty replica that absorbs a kernel of one dot beyond the first is that kernel, cloud and all.
  lemma AbsorbedByEmpty<T>(x: Kernel<T>, d: Dot)
    requires d.n > 1 && x.c == DotSet({d}) && x.ds.Keys == {d}
    ensures KJoin(Empty(), x) == x && x.c == Ctx(map[], {d}) && Wf(x)
  {
    UniqueNormalForm(DotSet({d}), Ctx(map[], {d}));
    forall e: Dot
      ensures At(KJoin(Empty(), x), e) == At(x, e)
    {
      AtJoin(KeepMine, Empty(), x, e);
    }
    SameEverywhere(KJoin(Empty(), x), x);
  }

  // ---------------------------------------------------------------- the mutable kernel

  // The store halfway through a join: dots in `here` and `there` are still to come.
  ghost predicate StoreWalked<T>(pj: (T, T) -> T, a: map<Dot, T>, ca: Ctx, b: map<Dot, T>, cb: Ctx,
                            ds: map<Dot, T>, here: set<Dot>, there: set<Dot>) {
    && here <= a.Keys && there <= b.Keys
    && (forall d | d in a && d in b :: d in here <==> d in there)
    && (forall d: Dot :: d in ds <==> d in here || (d !in there && d in Merge(pj, a, ca, b, cb)))
    && (forall d | d in ds :: ds[d] == if d in here then a[d] else Merge(pj, a, ca, b, cb)[d])
  }

  lemma StoreWalkEnds<T>(pj: (T, T) -> T, a: map<Dot, T>, ca: Ctx, b: map<Dot, T>, cb: Ctx, ds: map<Dot, T>)
    ensures StoreWalked(pj, a, ca, b, cb, a, a.Keys, b.Keys)
    ensures StoreWalked(pj, a, ca, b, cb, ds, {}, {}) ==> ds == Merge(pj, a, ca, b, cb)
  {
  }

  lemma StoreWalkStep<T>(pj: (T, T) -> T, a: map<Dot, T>, ca: Ctx, b: map<Dot, T>, cb: Ctx,
                      ds: map<Dot, T>, here: set<Dot>, there: set<Dot>, turn: Turn<Dot>, ds': map<Dot, T>)
    requires StoreWalked(pj, a, ca, b, cb, ds, here, there)
    requires turn.key in here || turn.key in there
    requires turn.Here? <==> turn.key !in there
    requires turn.There? <==> turn.key !in here
    requires turn.Here? ==> ds' == if In(cb, turn.key) then ds - {turn.key} else ds
    requires turn.There? ==> turn.key in b && ds' == if In(ca, turn.key) then ds else ds[turn.key := b[turn.key]]
    requires turn.Both? ==> turn.key in ds && turn.key in b &&
                            var mine, other := ds[turn.key], b[turn.key];
                            ds' == ds[turn.key := if mine == other then mine else pj(mine, other)]
    ensures StoreWalked(pj, a, ca, b, cb, ds', here - {turn.key}, there - {turn.key})
  {
  }

  class DotKernel<T(==)> {
    var ds: map<Dot, T>
    const c: DotContext

    ghost function Value(): Kernel<T>
      reads this, c
    {
      Kernel(ds, c.Value())
    }

    constructor ()
      ensures Value() == Empty()
      ensures fresh(c)
    {
      ds := map[];
      c := new DotContext();
    }

    // A kernel that shares the context of its surroundings.
    constructor Shared(jointc: DotContext)
      ensures ds == map[] && c == jointc
    {
      ds := map[];
      c := jointc;
    }

    method Join(o: DotKernel<T>)
      modifies this, c
      ensures this == o ==> Value() == old(Value())
      ensures this != o ==> ds == JoinStore(old(ds), old(c.Value()), o.ds, old(o.c.Value()))
      ensures this != o && c != o.c ==> Value() == KJoin(old(Value()), old(o.Value()))
      ensures c == o.c ==> c.Value() == old(c.Value())
    {
      if this == o {
        return;
      }
      ghost var a, ca, cb := ds, c.Value(), o.c.Value();
      var b := o.ds;
      var here, there := ds.Keys, b.Keys;
      StoreWalkEnds(KeepMine, a, ca, b, cb, ds);
      while here != {} || there != {}
        invariant StoreWalked(KeepMine, a, ca, b, cb, ds, here, there)
        invariant c.Value() == ca && o.c.Value() == cb
        decreases here, there
      {
        ghost var before := ds;
        var turn := DotTurn(here, there);
        if turn.Here? {
          if o.c.DotIn(turn.key) {
            ds := ds - {turn.key};
          }
        } else if turn.There? {
          if !c.DotIn(turn.key) {
            ds := ds[turn.key := b[turn.key]];
          }
        }
        assert turn.Both? ==> ds == ds[turn.key := ds[turn.key]];
        StoreWalkStep(KeepMine, a, ca, b, cb, before, here, there, turn, ds);
        here, there := here - {turn.key}, there - {turn.key};
      }
      StoreWalkEnds(KeepMine, a, ca, b, cb, ds);
      c.Join(o.c);
    }

    method DeepJoin(pj: (T, T) -> T, o: DotKernel<T>)
      modifies this, c
      ensures this == o ==> Value() == old(Value())
      ensures this != o ==> ds == Merge(pj, old(ds), old(c.Value()), o.ds, old(o.c.Value()))
      ensures this != o && c != o.c ==> Value() == KDeepJoin(pj, old(Value()), old(o.Value()))
      ensures c == o.c ==> c.Value() == old(c.Value())
    {
      if this == o {
        return;
      }
      ghost var a, ca, cb := ds, c.Value(), o.c.Value();
      var b := o.ds;
      var here, there := ds.Keys, b.Keys;
      StoreWalkEnds(pj, a, ca, b, cb, ds);
      while here != {} || there != {}
        invariant StoreWalked(pj, a, ca, b, cb, ds, here, there)
        invariant c.Value() == ca && o.c.Value() == cb
        decreases here, there
      {
        ghost var before := ds;
        var turn := DotTurn(here, there);
        if turn.Here? {
          if o.c.DotIn(turn.key) {
            ds := ds - {turn.key};
          }
        } else if turn.There? {
          if !c.DotIn(turn.key) {
            ds := ds[turn.key := b[turn.key]];
          }
        } else {
          if ds[turn.key] != b[turn.key] {
            ds := ds[turn.key := pj(ds[turn.key], b[turn.key])];
          }
        }
        StoreWalkStep(pj, a, ca, b, cb, before, here, there, turn, ds);
        here, there := here - {turn.key}, there - {turn.key};
      }
      StoreWalkEnds(pj, a, ca, b, cb, ds);
      c.Join(o.c);
    }

    method Add(id: Id, val: T) returns (res: DotKernel<T>)
      modifies this, c
      ensures fresh(res) && fresh(res.c)
      ensures Value() == Put(old(Value()), id, val)
      ensures res.Value() == PutDelta(old(Value()), id, val)
    {
      res := new DotKernel();
      var dot := c.MakeDot(id);
      if dot !in ds {
        ds := ds[dot := val];
      }
      res.ds := res.ds[dot := val];
      res.c.InsertDot(dot, true);
      UniqueNormalForm(res.c.Value(), DotSet({dot}));
    }

    // Removes every dot that carries val.
    method Rmv(val: T) returns (res: DotKernel<T>)
      modifies this
      ensures fresh(res) && fresh(res.c)
      ensures Value() == Drop(old(Value()), Matching(old(Value()), val))
      ensures res.Value() == DropDelta(Matching(old(Value()), val))
    {
      ghost var gone := Matching(Value(), val);
      res := new DotKernel();
      var rest := ds.Keys;
      while rest != {}
        invariant rest <= old(ds).Keys
        invariant ds == old(ds) - (gone - rest)
        invariant c.Value() == old(c.Value())
        invariant res.ds == map[] && res.c.Value() == Ctx(map[], gone - rest)
        decreases rest
      {
        var dot := LeastDot(rest);
        if ds[dot] == val {
          res.c.InsertDot(dot, false);
          ds := ds - {dot};
        }
        rest := rest - {dot};
      }
      res.c.Compact();
      UniqueNormalForm(res.c.Value(), DotSet(gone));
    }

    method RmvDot(dot: Dot) returns (res: DotKernel<T>)
      modifies this
      ensures fresh(res) && fresh(res.c)
      ensures Value() == Drop(old(Value()), {dot})
      ensures res.Value() == DropDelta({dot} * old(ds).Keys)
    {
      ghost var gone := {dot} * ds.Keys;
      res := new DotKernel();
      if dot in ds {
        res.c.InsertDot(dot, false);
        ds := ds - {dot};
      }
      assert res.c.dc == gone;
      res.c.Compact();
      UniqueNormalForm(res.c.Value(), DotSet(gone));
    }

    method RmvAll() returns (res: DotKernel<T>)
      modifies this
      ensures fresh(res) && fresh(res.c)
      ensures Value() == Drop(old(Value()), old(ds).Keys)
      ensures res.Value() == DropDelta(old(ds).Keys)
    {
      res := new DotKernel();
      var rest := ds.Keys;
      while rest != {}
        invariant rest <= ds.Keys && Value() == old(Value())
        invariant res.ds == map[] && res.c.Value() == Ctx(map[], ds.Keys - rest)
        decreases rest
      {
        var dot := LeastDot(rest);
        res.c.InsertDot(dot, false);
        rest := rest - {dot};
      }
      res.c.Compact();
      UniqueNormalForm(res.c.Value(), DotSet(ds.Keys));
      ds := map[];
    }
  }
}

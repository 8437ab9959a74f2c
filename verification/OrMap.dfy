// The observed-remove map: keys to embedded dot-kernel types whose kernels all share one causal
// context. The embedded type is any of those that are a single kernel (its join is the kernel's
// join, its reset is the kernel's rmv), so entries are kernels here.
module OrMaps {
  import opened Basics
  import opened DotContexts
  import opened DotKernels

  type Key = nat

  datatype MapValue<E> = MapValue(stores: map<Key, map<Dot, E>>, c: Ctx)

  function StoreAt<E>(stores: map<Key, map<Dot, E>>, k: Key): map<Dot, E> {
    if k in stores then stores[k] else map[]
  }

  ghost function JoinedStore<E>(x: MapValue<E>, y: MapValue<E>, k: Key): map<Dot, E> {
    JoinStore(StoreAt(x.stores, k), x.c, StoreAt(y.stores, k), y.c)
  }

  // Key by key, every entry against the contexts of before; the contexts join once, at the end.
  ghost function MapJoin<E>(x: MapValue<E>, y: MapValue<E>): MapValue<E> {
    MapValue(map k | k in x.stores.Keys + y.stores.Keys :: JoinedStore(x, y, k), CtxJoin(x.c, y.c))
  }

  // ---------------------------------------------------------------- the map as one kernel

  ghost function AllDots<E>(stores: map<Key, map<Dot, E>>): set<Dot> {
    set k, d | k in stores && d in stores[k] :: d
  }

  ghost predicate MapWf<E>(x: MapValue<E>) {
    && Compacted(x.c)
    && (forall k, d | k in x.stores && d in x.stores[k] :: In(x.c, d))
    && (forall j, k, d | j in x.stores && k in x.stores && d in x.stores[j] && d in x.stores[k] :: j == k)
  }

  ghost function KeyOf<E>(stores: map<Key, map<Dot, E>>, d: Dot): (k: Key)
    requires d in AllDots(stores)
    ensures k in stores && d in stores[k]
  {
    var k :| k in stores && d in stores[k];
    k
  }

  // One kernel whose payloads are (key, element); keys left empty leave no trace.
  ghost function Flatten<E>(x: MapValue<E>): Kernel<(Key, E)> {
    Kernel(map d | d in AllDots(x.stores) :: (KeyOf(x.stores, d), x.stores[KeyOf(x.stores, d)][d]), x.c)
  }

  // A dot has one key and one payload wherever it is stored.
  ghost predicate SameHome<E>(x: MapValue<E>, y: MapValue<E>) {
    forall j, k, d | j in x.stores && k in y.stores && d in x.stores[j] && d in y.stores[k] ::
      j == k && x.stores[j][d] == y.stores[k][d]
  }

  lemma FlattenAt<E>(x: MapValue<E>, k: Key, d: Dot)
    requires MapWf(x) && k in x.stores && d in x.stores[k]
    ensures d in Flatten(x).ds && Flatten(x).ds[d] == (k, x.stores[k][d])
  {
  }

  lemma FlattenWf<E>(x: MapValue<E>)
    requires MapWf(x)
    ensures Wf(Flatten(x))
  {
  }

  lemma FlattenAgree<E>(x: MapValue<E>, y: MapValue<E>)
    requires SameHome(x, y)
    ensures Agree(Flatten(x), Flatten(y))
  {
  }

  lemma MapJoinAt<E>(x: MapValue<E>, y: MapValue<E>, k: Key, d: Dot)
    ensures k in MapJoin(x, y).stores && d in MapJoin(x, y).stores[k] <==>
            Survives(d, StoreAt(x.stores, k), x.c, StoreAt(y.stores, k), y.c)
    ensures k in MapJoin(x, y).stores && d in MapJoin(x, y).stores[k] ==>
              MapJoin(x, y).stores[k][d] ==
              if d in StoreAt(x.stores, k) then StoreAt(x.stores, k)[d] else StoreAt(y.stores, k)[d]
  {
  }

  lemma MapJoinKeepsWf<E>(x: MapValue<E>, y: MapValue<E>)
    requires MapWf(x) && MapWf(y) && SameHome(x, y)
    ensures MapWf(MapJoin(x, y))
  {
    var z := MapJoin(x, y);
    InCtxJoin(x.c, y.c);
    forall k, d | k in z.stores && d in z.stores[k]
      ensures In(z.c, d)
    {
      MapJoinAt(x, y, k, d);
    }
    forall j, k, d | j in z.stores && k in z.stores && d in z.stores[j] && d in z.stores[k]
      ensures j == k
    {
      MapJoinAt(x, y, j, d);
      MapJoinAt(x, y, k, d);
    }
  }

  // The key-by-key join through one shared context is a single join of the flattened kernels.
  lemma FlattenJoin<E>(x: MapValue<E>, y: MapValue<E>)
    requires MapWf(x) && MapWf(y) && SameHome(x, y)
    ensures Flatten(MapJoin(x, y)) == KJoin(Flatten(x), Flatten(y))
    ensures MapWf(MapJoin(x, y))
  {
    MapJoinKeepsWf(x, y);
    var l, r := Flatten(MapJoin(x, y)), KJoin(Flatten(x), Flatten(y));
    forall d: Dot
      ensures At(l, d) == At(r, d)
    {
      FlattenJoinAt(x, y, d);
    }
    SameEverywhere(l, r);
  }

  // What the flattened kernel says about a dot that lives under key k, if anywhere.
  lemma FlattenAtHome<E>(x: MapValue<E>, k: Key, d: Dot)
    requires MapWf(x)
    requires forall j | j in x.stores && d in x.stores[j] :: j == k
    ensures At(Flatten(x), d) == Tagged(k, StoreAt(x.stores, k), x.c, d)
  {
    if d in StoreAt(x.stores, k) {
      FlattenAt(x, k, d);
    }
  }

  ghost function Tagged<E>(k: Key, store: map<Dot, E>, c: Ctx, d: Dot): Entry<(Key, E)> {
    Entry(if d in store then Some((k, store[d])) else None, In(c, d))
  }

  lemma TaggedJoin<E>(k: Key, a: map<Dot, E>, ca: Ctx, b: map<Dot, E>, cb: Ctx, d: Dot)
    requires d in a && d in b ==> a[d] == b[d]
    ensures Tagged(k, JoinStore(a, ca, b, cb), CtxJoin(ca, cb), d) ==
            JoinEntry(KeepMine, Tagged(k, a, ca, d), Tagged(k, b, cb, d))
  {
    InCtxJoin(ca, cb);
  }

  lemma FlattenJoinAt<E>(x: MapValue<E>, y: MapValue<E>, d: Dot)
    requires MapWf(x) && MapWf(y) && SameHome(x, y) && MapWf(MapJoin(x, y))
    ensures At(Flatten(MapJoin(x, y)), d) == At(KJoin(Flatten(x), Flatten(y)), d)
  {
    var z := MapJoin(x, y);
    var k: Key := if d in AllDots(x.stores) then KeyOf(x.stores, d)
                  else if d in AllDots(y.stores) then KeyOf(y.stores, d)
                  else 0;
    HomeIsShared(x, y, k, d);
    calc {
      At(Flatten(z), d);
      { FlattenAtHome(z, k, d); }
      Tagged(k, StoreAt(z.stores, k), z.c, d);
      { StoreAtJoin(x, y, k); }
      Tagged(k, JoinedStore(x, y, k), CtxJoin(x.c, y.c), d);
      { TaggedJoin(k, StoreAt(x.stores, k), x.c, StoreAt(y.stores, k), y.c, d); }
      JoinEntry(KeepMine, Tagged(k, StoreAt(x.stores, k), x.c, d), Tagged(k, StoreAt(y.stores, k), y.c, d));
      { FlattenAtHome(x, k, d); FlattenAtHome(y, k, d); }
      JoinEntry(KeepMine, At(Flatten(x), d), At(Flatten(y), d));
      { AtJoin(KeepMine, Flatten(x), Flatten(y), d); }
      At(KJoin(Flatten(x), Flatten(y)), d);
    }
  }

  lemma StoreAtJoin<E>(x: MapValue<E>, y: MapValue<E>, k: Key)
    ensures StoreAt(MapJoin(x, y).stores, k) == JoinedStore(x, y, k)
  {
  }

  lemma HomeIsShared<E>(x: MapValue<E>, y: MapValue<E>, k: Key, d: Dot)
    requires MapWf(x) && MapWf(y) && SameHome(x, y)
    requires k == if d in AllDots(x.stores) then KeyOf(x.stores, d)
                  else if d in AllDots(y.stores) then KeyOf(y.stores, d)
                  else 0
    ensures forall j | j in x.stores && d in x.stores[j] :: j == k
    ensures forall j | j in y.stores && d in y.stores[j] :: j == k
    ensures forall j | j in MapJoin(x, y).stores && d in MapJoin(x, y).stores[j] :: j == k
    ensures d in StoreAt(x.stores, k) && d in StoreAt(y.stores, k) ==>
              StoreAt(x.stores, k)[d] == StoreAt(y.stores, k)[d]
  {
    forall j | j in MapJoin(x, y).stores && d in MapJoin(x, y).stores[j]
      ensures j == k
    {
      MapJoinAt(x, y, j, d);
    }
  }

  // Hence the map join obeys the laws of the kernel join, up to keys left empty.
  lemma MapJoinLaws<E(!new)>(x: MapValue<E>, y: MapValue<E>, z: MapValue<E>)
    requires MapWf(x) && MapWf(y) && MapWf(z)
    requires SameHome(x, y) && SameHome(y, z) && SameHome(x, z)
    ensures Flatten(MapJoin(x, x)) == Flatten(x)
    ensures Flatten(MapJoin(x, y)) == Flatten(MapJoin(y, x))
    ensures Flatten(MapJoin(MapJoin(x, y), z)) == Flatten(MapJoin(x, MapJoin(y, z)))
  {
    FlattenWf(x); FlattenWf(y); FlattenWf(z);
    FlattenAgree(x, y); FlattenAgree(y, z); FlattenAgree(x, z);
    FlattenJoin(x, x); FlattenJoin(x, y); FlattenJoin(y, x); FlattenJoin(y, z);
    JoinIdempotent(KeepMine, Flatten(x));
    JoinCommutative(KeepMine, Flatten(x), Flatten(y));
    JoinedHome(x, y, z);
    JoinedHome(y, z, x);
    FlattenJoin(MapJoin(x, y), z);
    FlattenJoin(x, MapJoin(y, z));
    JoinAssociative(KeepMine, Flatten(x), Flatten(y), Flatten(z));
  }

  lemma JoinedHome<E>(x: MapValue<E>, y: MapValue<E>, z: MapValue<E>)
    requires SameHome(x, z) && SameHome(y, z)
    ensures SameHome(MapJoin(x, y), z) && SameHome(z, MapJoin(x, y))
  {
    var xy := MapJoin(x, y);
    forall j, k, d | j in xy.stores && k in z.stores && d in xy.stores[j] && d in z.stores[k]
      ensures j == k && xy.stores[j][d] == z.stores[k][d]
    {
      MapJoinAt(x, y, j, d);
    }
  }

  // ---------------------------------------------------------------- erase and reset

  ghost function EraseDelta<E>(x: MapValue<E>, k: Key): MapValue<E> {
    MapValue(map[], DotSet(StoreAt(x.stores, k).Keys))
  }

  ghost function ResetDelta<E>(x: MapValue<E>): MapValue<E> {
    MapValue(map[], DotSet(AllDots(x.stores)))
  }

  predicate Stored<E>(x: MapValue<E>, k: Key, d: Dot) {
    k in x.stores && d in x.stores[k]
  }

  // after is x without the dots in gone.
  ghost predicate Without<E>(x: MapValue<E>, gone: set<Dot>, after: MapValue<E>) {
    && after.c == x.c
    && (forall k, d :: Stored(after, k, d) <==> Stored(x, k, d) && d !in gone)
    && (forall k, d :: Stored(after, k, d) && Stored(x, k, d) ==> after.stores[k][d] == x.stores[k][d])
  }

  lemma WithoutIsWf<E>(x: MapValue<E>, gone: set<Dot>, after: MapValue<E>)
    requires MapWf(x) && Without(x, gone, after)
    ensures MapWf(after)
  {
    forall k, d | k in after.stores && d in after.stores[k]
      ensures In(after.c, d) && k in x.stores && d in x.stores[k]
    {
      assert Stored(after, k, d);
    }
    forall j, k, d | j in after.stores && k in after.stores && d in after.stores[j] && d in after.stores[k]
      ensures j == k
    {
      assert Stored(after, j, d) && Stored(after, k, d);
    }
  }

  lemma WithoutIsDrop<E>(x: MapValue<E>, gone: set<Dot>, after: MapValue<E>)
    requires MapWf(x) && MapWf(after) && Without(x, gone, after)
    ensures Flatten(after) == Drop(Flatten(x), gone)
  {
    forall d: Dot
      ensures At(Flatten(after), d) == At(Drop(Flatten(x), gone), d)
    {
      var k: Key := if d in AllDots(x.stores) then KeyOf(x.stores, d) else 0;
      FlattenAtHome(x, k, d);
      WithoutAt(x, gone, after, k, d);
    }
    SameEverywhere(Flatten(after), Drop(Flatten(x), gone));
  }

  lemma WithoutAt<E>(x: MapValue<E>, gone: set<Dot>, after: MapValue<E>, k: Key, d: Dot)
    requires MapWf(after) && Without(x, gone, after)
    requires forall j | j in x.stores && d in x.stores[j] :: j == k
    ensures At(Flatten(after), d) ==
            if d in gone then Entry(None, In(x.c, d)) else Tagged(k, StoreAt(x.stores, k), x.c, d)
  {
    forall j | j in after.stores && d in after.stores[j]
      ensures j == k
    {
      assert Stored(after, j, d);
    }
    FlattenAtHome(after, k, d);
    assert Stored(after, k, d) <==> Stored(x, k, d) && d !in gone;
  }

  lemma ClearedJoin<E>(x: MapValue<E>, gone: set<Dot>)
    requires MapWf(x) && gone <= AllDots(x.stores)
    ensures Flatten(MapJoin(x, MapValue(map[], DotSet(gone)))) == Drop(Flatten(x), gone)
  {
    var delta: MapValue<E> := MapValue(map[], DotSet(gone));
    FlattenWf(x);
    DropLaw(Flatten(x), gone);
    assert Flatten(delta) == DropDelta(gone);
    FlattenJoin(x, delta);
  }

  // Erasing a key, and clearing the map, are what joining their deltas does.
  lemma EraseLaw<E>(x: MapValue<E>, k: Key)
    requires MapWf(x)
    ensures Flatten(MapValue(x.stores - {k}, x.c)) == Flatten(MapJoin(x, EraseDelta(x, k)))
    ensures MapWf(MapValue(x.stores - {k}, x.c))
  {
    var gone := StoreAt(x.stores, k).Keys;
    WithoutIsWf(x, gone, MapValue(x.stores - {k}, x.c));
    WithoutIsDrop(x, gone, MapValue(x.stores - {k}, x.c));
    ClearedJoin(x, gone);
  }

  lemma ResetLaw<E>(x: MapValue<E>)
    requires MapWf(x)
    ensures Flatten(MapValue(map[], x.c)) == Flatten(MapJoin(x, ResetDelta(x)))
  {
    WithoutIsDrop(x, AllDots(x.stores), MapValue(map[], x.c));
    ClearedJoin(x, AllDots(x.stores));
  }

  // ---------------------------------------------------------------- the mutable map

  // The entries are held as their stores; while one is worked on, it is a kernel over the shared
  // context, as every entry of the map is.
  class OrMap<E(==)> {
    var m: map<Key, map<Dot, E>>
    const c: DotContext

    ghost function Value(): MapValue<E>
      reads this, c
    {
      MapValue(m, c.Value())
    }

    constructor ()
      ensures Value() == MapValue(map[], NO_DOTS)
      ensures fresh(c)
    {
      m := map[];
      c := new DotContext();
    }

    // The entry under k, empty on first access.
    method Entry(k: Key) returns (e: DotKernel<E>)
      ensures fresh(e) && e.c == c
      ensures e.ds == StoreAt(m, k)
    {
      e := new DotKernel.Shared(c);
      if k in m {
        e.ds := m[k];
      }
    }

    method Erase(k: Key) returns (r: OrMap<E>)
      modifies this
      ensures Value() == MapValue(old(m) - {k}, old(c.Value()))
      ensures fresh(r) && r.Value() == EraseDelta(old(Value()), k)
    {
      r := new OrMap();
      if k in m {
        var e := Entry(k);
        var v := e.RmvAll();
        r.c.Assign(v.c);
        m := m - {k};
      }
      UniqueNormalForm(r.c.Value(), DotSet(StoreAt(old(m), k).Keys));
    }

    // Collects the dots of every entry, then clears the map.
    method Reset() returns (r: OrMap<E>)
      modifies this
      ensures Value() == MapValue(map[], old(c.Value()))
      ensures fresh(r) && r.Value() == ResetDelta(old(Value()))
    {
      r := new OrMap();
      var rest := m.Keys;
      while rest != {}
        invariant rest <= m.Keys && Value() == old(Value())
        invariant r.m == map[] && r.c.Value() == DotSet(AllDots(m - rest))
        decreases rest
      {
        var k := LeastId(rest);
        var e := Entry(k);
        var v := e.RmvAll();
        CollectDots(m, rest, k);
        r.c.Join(v.c);
        rest := rest - {k};
      }
      assert m - {} == m;
      m := map[];
    }

    // Joins the entry under k with a kernel of the other map. That changes the shared context,
    // which is then put back to what it was before the join of the maps.
    method JoinEntry(k: Key, other: DotKernel<E>, ic: DotContext)
      requires ic != c && ic.Value() == c.Value()
      modifies this, c
      ensures m == old(m)[k := JoinStore(StoreAt(old(m), k), old(c.Value()), other.ds, other.c.Value())]
      ensures c.Value() == old(c.Value())
    {
      var e := Entry(k);
      e.Join(other);
      m := m[k := e.ds];
      c.Assign(ic);
    }

    // The entry under k with the other map's; where that has none, an empty payload over the other
    // context may still obsolete local dots.
    method JoinKey(k: Key, o: OrMap<E>, onlyHere: bool, ic: DotContext)
      requires ic != c && ic.Value() == c.Value() && (onlyHere ==> k !in o.m)
      modifies this, c
      ensures m == old(m)[k := JoinStore(StoreAt(old(m), k), old(c.Value()), StoreAt(old(o.m), k), old(o.c.Value()))]
      ensures c.Value() == old(c.Value())
    {
      if onlyHere {
        var empty := new DotKernel<E>.Shared(o.c);
        JoinEntry(k, empty, ic);
      } else {
        var other := o.Entry(k);
        JoinEntry(k, other, ic);
      }
    }

    method JoinEntries(o: OrMap<E>, ic: DotContext)
      requires ic != c && ic != o.c && ic.Value() == c.Value()
      modifies this, c
      ensures m == MapJoin(old(Value()), old(o.Value())).stores
      ensures c.Value() == old(c.Value())
    {
      ghost var x, y := Value(), o.Value();
      var here, there := m.Keys, o.m.Keys;
      MapWalkEnds(x, y);
      hide MapWalkOk, MapWalked, MapJoin, JoinedStore;
      while here != {} || there != {}
        invariant c.Value() == ic.Value() == x.c
        invariant MapWalkOk(x, y, here, there) && m == MapWalked(x, y, here, there)
        decreases here, there
      {
        var turn := IdTurn(here, there);
        var k := turn.key;
        MapWalkStep(x, y, here, there, k);
        JoinKey(k, o, turn.Here?, ic);
        here, there := here - {k}, there - {k};
      }
    }

    method Join(o: OrMap<E>)
      modifies this, c
      ensures m == MapJoin(old(Value()), old(o.Value())).stores
      ensures c != o.c ==> Value() == MapJoin(old(Value()), old(o.Value()))
      ensures c == o.c ==> c.Value() == old(c.Value())
    {
      var ic := new DotContext();
      ic.Assign(c);
      JoinEntries(o, ic);
      c.Join(o.c);
    }
  }

  // The stores halfway through a join: keys in `here` and `there` are still to come.
  ghost predicate MapWalkOk<E>(x: MapValue<E>, y: MapValue<E>, here: set<Key>, there: set<Key>) {
    && here <= x.stores.Keys && there <= y.stores.Keys
    && forall k | k in x.stores && k in y.stores :: k in here <==> k in there
  }

  ghost function MapWalked<E>(x: MapValue<E>, y: MapValue<E>, here: set<Key>, there: set<Key>): map<Key, map<Dot, E>>
    requires MapWalkOk(x, y, here, there)
  {
    map k | k in x.stores.Keys + (y.stores.Keys - there) :: if k in here then x.stores[k] else JoinedStore(x, y, k)
  }

  lemma MapWalkEnds<E>(x: MapValue<E>, y: MapValue<E>)
    ensures MapWalkOk(x, y, x.stores.Keys, y.stores.Keys) && MapWalkOk(x, y, {}, {})
    ensures MapWalked(x, y, x.stores.Keys, y.stores.Keys) == x.stores
    ensures MapWalked(x, y, {}, {}) == MapJoin(x, y).stores
  {
  }

  lemma MapWalkStep<E>(x: MapValue<E>, y: MapValue<E>, here: set<Key>, there: set<Key>, k: Key)
    requires MapWalkOk(x, y, here, there)
    requires k in here || k in there
    ensures MapWalkOk(x, y, here - {k}, there - {k})
    ensures k !in there ==> k !in y.stores
    ensures StoreAt(MapWalked(x, y, here, there), k) == StoreAt(x.stores, k)
    ensures MapWalked(x, y, here - {k}, there - {k}) == MapWalked(x, y, here, there)[k := JoinedStore(x, y, k)]
  {
  }

  lemma CollectDots<E>(stores: map<Key, map<Dot, E>>, rest: set<Key>, k: Key)
    requires k in rest && rest <= stores.Keys
    ensures CtxJoin(DotSet(AllDots(stores - rest)), DotSet(stores[k].Keys)) == DotSet(AllDots(stores - (rest - {k})))
  {
    var l, r := CtxJoin(DotSet(AllDots(stores - rest)), DotSet(stores[k].Keys)), DotSet(AllDots(stores - (rest - {k})));
    InCtxJoin(DotSet(AllDots(stores - rest)), DotSet(stores[k].Keys));
    forall d: Dot
      ensures d in Dots(l) <==> d in Dots(r)
    {
      if d in AllDots(stores - (rest - {k})) {
        var j := KeyOf(stores - (rest - {k}), d);
        assert j == k || (j in stores - rest && d in (stores - rest)[j]);
      }
      if d in stores[k] {
        assert k in stores - (rest - {k}) && d in (stores - (rest - {k}))[k];
      }
      if d in AllDots(stores - rest) {
        var j := KeyOf(stores - rest, d);
        assert j in stores - (rest - {k}) && d in (stores - (rest - {k}))[j];
      }
    }
    UniqueNormalForm(l, r);
  }
}

// The data types built directly on a dot kernel: add-wins set, remove-wins set, multi-value register.
// Every mutator returns a delta; the laws say that joining the delta is all the mutator does.
module DotTypes {
  import opened DotContexts
  import opened DotKernels

  // A replica that may be mutated: well-formed, and its own dots are all in the compact part.
  ghost predicate Replica<T>(k: Kernel<T>, id: Id) {
    Wf(k) && OwnCompact(k.c, id)
  }

  // ---------------------------------------------------------------- add-wins set

  ghost function AworAdd<E>(k: Kernel<E>, id: Id, val: E): Kernel<E> {
    Put(Drop(k, Matching(k, val)), id, val)
  }

  ghost function AworAddDelta<E>(k: Kernel<E>, id: Id, val: E): Kernel<E> {
    ReplaceDelta(k, Matching(k, val), id, val)
  }

  ghost function AworRead<E>(k: Kernel<E>): set<E> {
    k.ds.Values
  }

  lemma AworDeltaLaws<E>(k: Kernel<E>, id: Id, val: E)
    requires Replica(k, id)
    ensures AworAdd(k, id, val) == KJoin(k, AworAddDelta(k, id, val)) && Replica(AworAdd(k, id, val), id)
    ensures Drop(k, Matching(k, val)) == KJoin(k, DropDelta(Matching(k, val))) && Replica(Drop(k, Matching(k, val)), id)
    ensures Drop(k, k.ds.Keys) == KJoin(k, DropDelta(k.ds.Keys)) && Replica(Drop(k, k.ds.Keys), id)
  {
    ReplaceLaw(k, Matching(k, val), id, val);
    DropLaw(k, Matching(k, val));
    DropLaw(k, k.ds.Keys);
  }

  // What the mutators do to the set a replica reads.
  lemma AworReads<E>(k: Kernel<E>, id: Id, val: E)
    requires Replica(k, id)
    ensures AworRead(AworAdd(k, id, val)) == AworRead(k) + {val}
    ensures AworRead(Drop(k, Matching(k, val))) == AworRead(k) - {val}
    ensures AworRead(Drop(k, k.ds.Keys)) == {}
  {
    NextDotIsFresh(k.c, id);
    var dot, after := NextDot(k.c, id), AworAdd(k, id, val);
    assert after.ds == (k.ds - Matching(k, val))[dot := val];
    forall v
      ensures v in AworRead(after) <==> v in AworRead(k) + {val}
    {
      if v == val {
        assert after.ds[dot] == v;
      } else if v in AworRead(k) {
        var d :| d in k.ds && k.ds[d] == v;
        assert after.ds[d] == v;
      }
    }
    var removed := Drop(k, Matching(k, val));
    forall v
      ensures v in AworRead(removed) <==> v in AworRead(k) - {val}
    {
      if v in AworRead(k) && v != val {
        var d :| d in k.ds && k.ds[d] == v;
        assert removed.ds[d] == v;
      }
    }
  }

  // Adding leaves a value under one dot, the new one, however many it had.
  lemma AddedOnce<E>(k: Kernel<E>, id: Id, val: E, d: Dot)
    requires Replica(k, id)
    ensures d in AworAdd(k, id, val).ds && AworAdd(k, id, val).ds[d] == val <==> d == NextDot(k.c, id)
  {
    NextDotIsFresh(k.c, id);
  }

  class AworSet<E(==)> {
    const dk: DotKernel<E>
    const id: Id

    ghost function Value(): Kernel<E>
      reads dk, dk.c
    {
      dk.Value()
    }

    constructor (k: Id)
      ensures id == k && Value() == Empty()
      ensures fresh(dk) && fresh(dk.c)
    {
      id := k;
      dk := new DotKernel();
    }

    // A delta: it carries a kernel and is never mutated.
    constructor Delta(kernel: DotKernel<E>)
      ensures dk == kernel
    {
      id := 0;
      dk := kernel;
    }

    method Read() returns (res: set<E>)
      ensures res == AworRead(Value())
    {
      res := {};
      var rest := dk.ds.Keys;
      while rest != {}
        invariant rest <= dk.ds.Keys
        invariant res == set d | d in dk.ds && d !in rest :: dk.ds[d]
        decreases rest
      {
        var d := LeastDot(rest);
        res := res + {dk.ds[d]};
        rest := rest - {d};
      }
      assert res == (set d | d in dk.ds :: dk.ds[d]);
    }

    method In(val: E) returns (found: bool)
      ensures found <==> val in AworRead(Value())
    {
      var rest := dk.ds.Keys;
      while rest != {}
        invariant rest <= dk.ds.Keys
        invariant forall d | d in dk.ds && d !in rest :: dk.ds[d] != val
        decreases rest
      {
        var d := LeastDot(rest);
        if dk.ds[d] == val {
          return true;
        }
        rest := rest - {d};
      }
      found := false;
    }

    // First deletes val, as an optimization, then adds it under a new dot.
    method Add(val: E) returns (r: AworSet<E>)
      modifies dk, dk.c
      ensures fresh(r) && fresh(r.dk) && fresh(r.dk.c)
      ensures Value() == AworAdd(old(Value()), id, val)
      ensures r.Value() == AworAddDelta(old(Value()), id, val)
      ensures Replica(old(Value()), id) ==> Replica(Value(), id) && Value() == KJoin(old(Value()), r.Value())
    {
      ghost var k := Value();
      if Replica(k, id) {
        AworDeltaLaws(k, id, val);
      }
      hide KJoin, Replica, Matching, DotSet;
      var removed := dk.Rmv(val);
      var added := dk.Add(id, val);
      removed.Join(added);
      r := new AworSet.Delta(removed);
    }

    method Rmv(val: E) returns (r: AworSet<E>)
      modifies dk, dk.c
      ensures fresh(r) && fresh(r.dk) && fresh(r.dk.c)
      ensures Value() == Drop(old(Value()), Matching(old(Value()), val))
      ensures r.Value() == DropDelta(Matching(old(Value()), val))
      ensures Wf(old(Value())) ==> Wf(Value()) && Value() == KJoin(old(Value()), r.Value())
    {
      if Wf(Value()) {
        DropLaw(Value(), Matching(Value(), val));
      }
      var removed := dk.Rmv(val);
      r := new AworSet.Delta(removed);
    }

    method Reset() returns (r: AworSet<E>)
      modifies dk, dk.c
      ensures fresh(r) && fresh(r.dk) && fresh(r.dk.c)
      ensures Value() == Drop(old(Value()), old(Value()).ds.Keys)
      ensures r.Value() == DropDelta(old(Value()).ds.Keys)
      ensures Wf(old(Value())) ==> Wf(Value()) && Value() == KJoin(old(Value()), r.Value())
    {
      if Wf(Value()) {
        DropLaw(Value(), Value().ds.Keys);
      }
      var removed := dk.RmvAll();
      r := new AworSet.Delta(removed);
    }

    method Join(o: AworSet<E>)
      modifies dk, dk.c
      ensures dk.c != o.dk.c ==> Value() == KJoin(old(Value()), old(o.Value()))
      ensures dk.c == o.dk.c ==> dk.c.Value() == old(dk.c.Value())
      ensures dk.c == o.dk.c && dk != o.dk ==>
                dk.ds == JoinStore(old(dk.ds), old(dk.c.Value()), o.dk.ds, old(dk.c.Value()))
      ensures dk == o.dk ==> Value() == old(Value())
    {
      dk.Join(o.dk);
    }
  }

  // ---------------------------------------------------------------- remove-wins set

  // Adding (val, true) or removing (val, false) replaces every token of val by one new token.
  ghost function Tokens<E>(k: Kernel<(E, bool)>, val: E): set<Dot> {
    Matching(k, (val, true)) + Matching(k, (val, false))
  }

  ghost function RworMark<E>(k: Kernel<(E, bool)>, id: Id, val: E, present: bool): Kernel<(E, bool)> {
    Put(Drop(k, Tokens(k, val)), id, (val, present))
  }

  ghost function RworMarkDelta<E>(k: Kernel<(E, bool)>, id: Id, val: E, present: bool): Kernel<(E, bool)> {
    ReplaceDelta(k, Tokens(k, val), id, (val, present))
  }

  // An element is read when it has a token and every token of it is an add token.
  ghost predicate RworIn<E>(k: Kernel<(E, bool)>, v: E) {
    (v, true) in k.ds.Values && (v, false) !in k.ds.Values
  }

  // The flags of the tokens of each element met so far, folded by and.
  ghost predicate Folded<E>(ds: map<Dot, (E, bool)>, rest: set<Dot>, elems: map<E, bool>) {
    && (forall d | d in ds && d !in rest :: ds[d].0 in elems && (elems[ds[d].0] ==> ds[d].1))
    && (forall v | v in elems :: exists d :: d in ds && d !in rest && ds[d] == (v, elems[v]))
  }

  lemma FoldedStep<E>(ds: map<Dot, (E, bool)>, rest: set<Dot>, elems: map<E, bool>, d: Dot)
    requires Folded(ds, rest, elems) && d in rest && rest <= ds.Keys
    ensures var (v, flag) := ds[d];
            Folded(ds, rest - {d}, if v in elems then elems[v := elems[v] && flag] else elems[v := flag])
  {
    var (v, flag) := ds[d];
    var elems' := if v in elems then elems[v := elems[v] && flag] else elems[v := flag];
    forall w | w in elems'
      ensures exists e :: e in ds && e !in rest - {d} && ds[e] == (w, elems'[w])
    {
      if w == v && (v !in elems || elems[v]) {
        assert ds[d] == (w, elems'[w]);
      } else {
        var e :| e in ds && e !in rest && ds[e] == (w, elems[w]);
        assert ds[e] == (w, elems'[w]);
      }
    }
  }

  lemma FoldedIsIn<E>(k: Kernel<(E, bool)>, elems: map<E, bool>, v: E)
    requires Folded(k.ds, {}, elems)
    ensures v in elems && elems[v] <==> RworIn(k, v)
  {
    if v in elems {
      var d :| d in k.ds && k.ds[d] == (v, elems[v]);
    }
  }

  lemma RworDeltaLaw<E>(k: Kernel<(E, bool)>, id: Id, val: E, present: bool)
    requires Replica(k, id)
    ensures RworMark(k, id, val, present) == KJoin(k, RworMarkDelta(k, id, val, present))
    ensures Replica(RworMark(k, id, val, present), id)
    ensures RworIn(RworMark(k, id, val, present), val) <==> present
  {
    ReplaceLaw(k, Tokens(k, val), id, (val, present));
    var after, dot := RworMark(k, id, val, present), NextDot(k.c, id);
    assert after.ds[dot] == (val, present);
  }

  // Marking leaves a value one token, the new one.
  lemma MarkedOnce<E>(k: Kernel<(E, bool)>, id: Id, val: E, present: bool)
    requires Replica(k, id)
    ensures Tokens(RworMark(k, id, val, present), val) == {NextDot(k.c, id)}
  {
    NextDotIsFresh(k.c, id);
    hide Replica, In, Generated;
  }

  lemma RmvTokensInSteps<E>(k: Kernel<(E, bool)>, val: E)
    ensures var adds := Matching(k, (val, true));
            var rmvs := Matching(Drop(k, adds), (val, false));
            && Drop(Drop(k, adds), rmvs) == Drop(k, Tokens(k, val))
            && KJoin(DropDelta<(E, bool)>(adds), DropDelta(rmvs)) == DropDelta(Tokens(k, val))
  {
    var adds, rmvs := Matching(k, (val, true)), Matching(k, (val, false));
    assert Matching(Drop(k, adds), (val, false)) == rmvs;
    DropDeltasJoin<(E, bool)>(adds, rmvs);
  }

  // Remove wins: a join that keeps any remove token of v does not contain v.
  lemma RemoveTokenWins<E>(x: Kernel<(E, bool)>, y: Kernel<(E, bool)>, v: E, d: Dot)
    requires Wf(x) && Wf(y)
    requires d in x.ds && x.ds[d] == (v, false) && !In(y.c, d)
    ensures !RworIn(KJoin(x, y), v) && !RworIn(KJoin(y, x), v)
  {
    AtJoin(KeepMine, x, y, d);
    AtJoin(KeepMine, y, x, d);
    assert KJoin(x, y).ds[d] == (v, false);
    assert KJoin(y, x).ds[d] == (v, false);
  }

  class RworSet<E(==,!new)> {
    const dk: DotKernel<(E, bool)>
    const id: Id

    ghost function Value(): Kernel<(E, bool)>
      reads dk, dk.c
    {
      dk.Value()
    }

    constructor (k: Id)
      ensures id == k && Value() == Empty()
      ensures fresh(dk) && fresh(dk.c)
    {
      id := k;
      dk := new DotKernel();
    }

    constructor Delta(kernel: DotKernel<(E, bool)>)
      ensures dk == kernel
    {
      id := 0;
      dk := kernel;
    }

    method Read() returns (res: set<E>)
      ensures forall v :: v in res <==> RworIn(Value(), v)
    {
      var elems: map<E, bool> := map[];
      var rest := dk.ds.Keys;
      while rest != {}
        invariant rest <= dk.ds.Keys && Folded(dk.ds, rest, elems)
        decreases rest
      {
        var d := LeastDot(rest);
        var (v, flag) := dk.ds[d];
        FoldedStep(dk.ds, rest, elems, d);
        if v in elems {
          elems := elems[v := elems[v] && flag];
        } else {
          elems := elems[v := flag];
        }
        rest := rest - {d};
      }
      res := set v | v in elems && elems[v];
      forall v
        ensures v in res <==> RworIn(Value(), v)
      {
        FoldedIsIn(Value(), elems, v);
      }
    }

    method In(val: E) returns (found: bool)
      ensures found <==> RworIn(Value(), val)
    {
      var s := Read();
      found := val in s;
    }

    method Add(val: E) returns (r: RworSet<E>)
      modifies dk, dk.c
      ensures fresh(r) && fresh(r.dk) && fresh(r.dk.c)
      ensures Value() == RworMark(old(Value()), id, val, true)
      ensures r.Value() == RworMarkDelta(old(Value()), id, val, true)
      ensures Replica(old(Value()), id) ==> Replica(Value(), id) && Value() == KJoin(old(Value()), r.Value())
    {
      r := Mark(val, true);
    }

    method Rmv(val: E) returns (r: RworSet<E>)
      modifies dk, dk.c
      ensures fresh(r) && fresh(r.dk) && fresh(r.dk.c)
      ensures Value() == RworMark(old(Value()), id, val, false)
      ensures r.Value() == RworMarkDelta(old(Value()), id, val, false)
      ensures Replica(old(Value()), id) ==> Replica(Value(), id) && Value() == KJoin(old(Value()), r.Value())
    {
      r := Mark(val, false);
    }

    // Removes the observed add tokens of val, then the observed remove tokens.
    method RmvTokens(val: E) returns (res: DotKernel<(E, bool)>)
      modifies dk
      ensures fresh(res) && fresh(res.c)
      ensures Value() == Drop(old(Value()), Tokens(old(Value()), val))
      ensures res.Value() == DropDelta(Tokens(old(Value()), val))
    {
      RmvTokensInSteps(Value(), val);
      res := dk.Rmv((val, true));
      var second := dk.Rmv((val, false));
      res.Join(second);
    }

    method Mark(val: E, present: bool) returns (r: RworSet<E>)
      modifies dk, dk.c
      ensures fresh(r) && fresh(r.dk) && fresh(r.dk.c)
      ensures Value() == RworMark(old(Value()), id, val, present)
      ensures r.Value() == RworMarkDelta(old(Value()), id, val, present)
      ensures Replica(old(Value()), id) ==> Replica(Value(), id) && Value() == KJoin(old(Value()), r.Value())
    {
      ghost var k := Value();
      if Replica(k, id) {
        RworDeltaLaw(k, id, val, present);
      }
      hide KJoin, Replica, Tokens, DotSet;
      var removed := RmvTokens(val);
      var added := dk.Add(id, (val, present));
      removed.Join(added);
      r := new RworSet.Delta(removed);
    }

    method Join(o: RworSet<E>)
      modifies dk, dk.c
      ensures dk.c != o.dk.c ==> Value() == KJoin(old(Value()), old(o.Value()))
      ensures dk.c == o.dk.c ==> dk.c.Value() == old(dk.c.Value())
      ensures dk.c == o.dk.c && dk != o.dk ==>
                dk.ds == JoinStore(old(dk.ds), old(dk.c.Value()), o.dk.ds, old(dk.c.Value()))
      ensures dk == o.dk ==> Value() == old(Value())
    {
      dk.Join(o.dk);
    }
  }

  // ---------------------------------------------------------------- multi-value register

  ghost function MvWrite<V>(k: Kernel<V>, id: Id, val: V): Kernel<V> {
    Put(Drop(k, k.ds.Keys), id, val)
  }

  ghost function MvWriteDelta<V>(k: Kernel<V>, id: Id, val: V): Kernel<V> {
    ReplaceDelta(k, k.ds.Keys, id, val)
  }

  lemma MvWriteLaw<V>(k: Kernel<V>, id: Id, val: V)
    requires Replica(k, id)
    ensures MvWrite(k, id, val) == KJoin(k, MvWriteDelta(k, id, val))
    ensures Replica(MvWrite(k, id, val), id)
    ensures MvWrite(k, id, val).ds.Values == {val} && MvWrite(k, id, val).ds.Keys == {NextDot(k.c, id)}
  {
    ReplaceLaw(k, k.ds.Keys, id, val);
    assert MvWrite(k, id, val).ds == map[NextDot(k.c, id) := val];
  }

  class MvReg<V(==)> {
    const dk: DotKernel<V>
    const id: Id

    ghost function Value(): Kernel<V>
      reads dk, dk.c
    {
      dk.Value()
    }

    constructor (k: Id)
      ensures id == k && Value() == Empty()
      ensures fresh(dk) && fresh(dk.c)
    {
      id := k;
      dk := new DotKernel();
    }

    constructor Delta(kernel: DotKernel<V>)
      ensures dk == kernel
    {
      id := 0;
      dk := kernel;
    }

    method Read() returns (res: set<V>)
      ensures res == Value().ds.Values
    {
      res := {};
      var rest := dk.ds.Keys;
      while rest != {}
        invariant rest <= dk.ds.Keys
        invariant res == set d | d in dk.ds && d !in rest :: dk.ds[d]
        decreases rest
      {
        var d := LeastDot(rest);
        res := res + {dk.ds[d]};
        rest := rest - {d};
      }
      assert res == (set d | d in dk.ds :: dk.ds[d]);
    }

    method Write(val: V) returns (r: MvReg<V>)
      modifies dk, dk.c
      ensures fresh(r) && fresh(r.dk) && fresh(r.dk.c)
      ensures Value() == MvWrite(old(Value()), id, val)
      ensures r.Value() == MvWriteDelta(old(Value()), id, val)
      ensures Replica(old(Value()), id) ==> Replica(Value(), id) && Value() == KJoin(old(Value()), r.Value())
    {
      ghost var k := Value();
      if Replica(k, id) {
        MvWriteLaw(k, id, val);
      }
      var removed := dk.RmvAll();
      var added := dk.Add(id, val);
      removed.Join(added);
      r := new MvReg.Delta(removed);
    }

    method Join(o: MvReg<V>)
      modifies dk, dk.c
      ensures dk.c != o.dk.c ==> Value() == KJoin(old(Value()), old(o.Value()))
      ensures dk.c == o.dk.c ==> dk.c.Value() == old(dk.c.Value())
      ensures dk.c == o.dk.c && dk != o.dk ==>
                dk.ds == JoinStore(old(dk.ds), old(dk.c.Value()), o.dk.ds, old(dk.c.Value()))
      ensures dk == o.dk ==> Value() == old(Value())
    {
      dk.Join(o.dk);
    }
  }
}

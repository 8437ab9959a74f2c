// Causal contexts: which dots (replica id, sequence number) a replica has heard of.
//
// A context is held in two parts, a compact part `cc` (id -> highest sequence number of a gapless
// prefix) and a cloud `dc` of dots beyond the prefix. Values of type Ctx are the states of the
// class DotContext; the class is what the code mutates, the values are what the laws are about.
module DotContexts {
  import opened Basics

  // The source leaves the id type open and uses only that it is totally ordered.
  type Id = nat
  type Positive = x: int | x >= 1 witness 1

  datatype Dot = Dot(id: Id, n: Positive)

  // The order of std::pair, which std::set and std::map iterate in.
  predicate Less(a: Dot, b: Dot) {
    a.id < b.id || (a.id == b.id && a.n < b.n)
  }

  datatype Ctx = Ctx(cc: map<Id, Positive>, dc: set<Dot>)

  const NO_DOTS: Ctx := Ctx(map[], {})

  function Top(cc: map<Id, Positive>, id: Id): nat {
    if id in cc then cc[id] else 0
  }

  predicate In(c: Ctx, d: Dot) {
    d.n <= Top(c.cc, d.id) || d in c.dc
  }

  // What a context means: the dots it knows.
  ghost function Dots(c: Ctx): iset<Dot> {
    iset d: Dot | In(c, d)
  }

  // Nothing in the cloud is dominated by or contiguous with the compact part.
  predicate Compacted(c: Ctx) {
    forall d | d in c.dc :: d.n > Top(c.cc, d.id) + 1
  }

  // The compacted representation of a set of dots is unique.
  lemma UniqueNormalForm(a: Ctx, b: Ctx)
    requires Compacted(a) && Compacted(b)
    requires Dots(a) == Dots(b)
    ensures a == b
  {
    forall id: Id
      ensures Top(a.cc, id) == Top(b.cc, id)
    {
      TopNotBelow(a, b, id);
      TopNotBelow(b, a, id);
    }
    forall id: Id
      ensures id in a.cc <==> id in b.cc
      ensures id in a.cc ==> a.cc[id] == b.cc[id]
    {
      assert Top(a.cc, id) == Top(b.cc, id);
    }
    assert a.cc == b.cc;
    forall d: Dot
      ensures d in a.dc <==> d in b.dc
    {
      assert d in Dots(a) <==> d in Dots(b);
    }
    assert a.dc == b.dc;
  }

  lemma TopNotBelow(a: Ctx, b: Ctx, id: Id)
    requires Compacted(a)
    requires Dots(a) == Dots(b)
    ensures Top(a.cc, id) >= Top(b.cc, id)
  {
    var d := Dot(id, Top(a.cc, id) + 1);
    assert !In(a, d);
    assert d in Dots(a) <==> d in Dots(b);
  }

  // One compaction step: dot d leaves the cloud, extending the compact part when it is the next one.
  function Absorb(c: Ctx, d: Dot): (r: Ctx)
    requires d in c.dc && d.n <= Top(c.cc, d.id) + 1
    ensures Dots(r) == Dots(c)
  {
    var r := Ctx(if d.n == Top(c.cc, d.id) + 1 then c.cc[d.id := d.n] else c.cc, c.dc - {d});
    assert forall e: Dot :: In(r, e) <==> In(c, e);
    r
  }

  // Compaction in any order. By UniqueNormalForm the order does not matter.
  ghost function Norm(c: Ctx): (r: Ctx)
    ensures Compacted(r)
    ensures Dots(r) == Dots(c)
    decreases |c.dc|
  {
    if Compacted(c) then c
    else
      var d :| d in c.dc && d.n <= Top(c.cc, d.id) + 1;
      Norm(Absorb(c, d))
  }

  // The compacted context that knows exactly the dots in s.
  ghost function DotSet(s: set<Dot>): (r: Ctx)
    ensures Compacted(r)
    ensures forall d: Dot :: In(r, d) <==> d in s
  {
    var c := Ctx(map[], s);
    var r := Norm(c);
    assert forall d: Dot :: In(r, d) <==> d in Dots(r);
    assert forall d: Dot :: In(c, d) <==> d in Dots(c);
    r
  }

  function MaxCc(a: map<Id, Positive>, b: map<Id, Positive>): map<Id, Positive> {
    map id | id in a.Keys + b.Keys :: Max(Top(a, id), Top(b, id))
  }

  // The compact part while the other one is walked: the ids in `left` are still to come.
  function MaxCcBut(a: map<Id, Positive>, b: map<Id, Positive>, left: set<Id>): map<Id, Positive> {
    map id | id in a.Keys + (b.Keys - left) :: if id in left then a[id] else Max(Top(a, id), Top(b, id))
  }

  lemma MaxCcButEnds(a: map<Id, Positive>, b: map<Id, Positive>)
    ensures MaxCcBut(a, b, b.Keys) == a
    ensures MaxCcBut(a, b, {}) == MaxCc(a, b)
  {
  }

  // Halfway through the side-by-side walk; a key of both parts is passed in both at once.
  ghost predicate Walked(a: map<Id, Positive>, b: map<Id, Positive>, cc: map<Id, Positive>,
                         here: set<Id>, there: set<Id>) {
    && here <= a.Keys && there <= b.Keys
    && (forall id | id in a && id in b :: id in here <==> id in there)
    && cc == MaxCcBut(a, b, there)
  }

  lemma WalkedStep(a: map<Id, Positive>, b: map<Id, Positive>, cc: map<Id, Positive>,
                   here: set<Id>, there: set<Id>, turn: Turn<Id>)
    requires Walked(a, b, cc, here, there)
    requires turn.key in here || turn.key in there
    requires turn.Here? <==> turn.key !in there
    requires turn.There? <==> turn.key !in here
    ensures turn.Here? ==> Walked(a, b, cc, here - {turn.key}, there)
    ensures turn.There? ==>
              turn.key in b && Walked(a, b, cc[turn.key := b[turn.key]], here, there - {turn.key})
    ensures turn.Both? ==>
              && turn.key in b && turn.key in cc
              && Walked(a, b, cc[turn.key := Max(cc[turn.key], b[turn.key])], here - {turn.key}, there - {turn.key})
  {
    var id := turn.key;
    if turn.There? {
      assert id !in a;
      assert MaxCcBut(a, b, there - {id}) == cc[id := b[id]];
    } else if turn.Both? {
      assert cc[id] == a[id];
      assert MaxCcBut(a, b, there - {id}) == cc[id := Max(cc[id], b[id])];
    }
  }

  ghost function CtxJoin(a: Ctx, b: Ctx): (r: Ctx)
    ensures Compacted(r)
    ensures Dots(r) == Dots(a) + Dots(b)
  {
    var c := Ctx(MaxCc(a.cc, b.cc), a.dc + b.dc);
    assert forall d: Dot :: In(c, d) <==> In(a, d) || In(b, d);
    Norm(c)
  }

  lemma InCtxJoin(a: Ctx, b: Ctx)
    ensures forall d: Dot :: In(CtxJoin(a, b), d) <==> In(a, d) || In(b, d)
  {
    var r := CtxJoin(a, b);
    forall d: Dot
      ensures In(r, d) <==> In(a, d) || In(b, d)
    {
      assert In(r, d) <==> d in Dots(r);
    }
  }

  // Context join is a semilattice on representations, not just on the dots they denote.
  lemma CtxJoinLaws(a: Ctx, b: Ctx, c: Ctx)
    ensures Compacted(a) ==> CtxJoin(a, a) == a
    ensures CtxJoin(a, b) == CtxJoin(b, a)
    ensures CtxJoin(CtxJoin(a, b), c) == CtxJoin(a, CtxJoin(b, c))
  {
    if Compacted(a) {
      UniqueNormalForm(CtxJoin(a, a), a);
    }
    UniqueNormalForm(CtxJoin(a, b), CtxJoin(b, a));
    UniqueNormalForm(CtxJoin(CtxJoin(a, b), c), CtxJoin(a, CtxJoin(b, c)));
  }

  // makedot: the dot after the compact prefix of id.
  function NextDot(c: Ctx, id: Id): Dot {
    Dot(id, Top(c.cc, id) + 1)
  }

  function Generated(c: Ctx, id: Id): Ctx {
    c.(cc := c.cc[id := Top(c.cc, id) + 1])
  }

  // A valid dot generator keeps all its own dots in the compact part.
  predicate OwnCompact(c: Ctx, id: Id) {
    forall d | d in c.dc :: d.id != id
  }

  // The next dot is new whenever the generator is valid or the context is compacted; generating it
  // adds exactly that dot, and keeps a compacted context compacted only because the generator is valid.
  lemma NextDotIsFresh(c: Ctx, id: Id)
    requires OwnCompact(c, id) || Compacted(c)
    ensures !In(c, NextDot(c, id))
    ensures forall d: Dot :: In(Generated(c, id), d) <==> In(c, d) || d == NextDot(c, id)
    ensures OwnCompact(c, id) && Compacted(c) ==> Compacted(Generated(c, id)) && OwnCompact(Generated(c, id), id)
  {
  }

  // If the own dots of a compacted context have no gap, none of them is in the cloud.
  lemma GaplessIsOwnCompact(c: Ctx, id: Id, top: nat)
    requires Compacted(c)
    requires forall n: Positive :: In(c, Dot(id, n)) <==> n <= top
    ensures OwnCompact(c, id)
    ensures Top(c.cc, id) == top
  {
    var t := Top(c.cc, id);
    assert !In(c, Dot(id, t + 1));
    if t >= 1 {
      assert In(c, Dot(id, t));
    }
    forall d | d in c.dc
      ensures d.id != id
    {
      if d.id == id {
        assert In(c, Dot(id, d.n));
      }
    }
  }

  // ---------------------------------------------------------------- iteration order

  predicate IsLeast(s: set<Id>, k: Id) {
    k in s && forall j | j in s :: k <= j
  }

  lemma LeastIdExists(s: set<Id>)
    requires s != {}
    ensures exists k :: IsLeast(s, k)
  {
    var k :| k in s;
    var rest := s - {k};
    if rest != {} {
      LeastIdExists(rest);
      var m :| IsLeast(rest, m);
      assert s == rest + {k};
      assert if k < m then IsLeast(s, k) else IsLeast(s, m);
    } else {
      assert s == {k};
      assert IsLeast(s, k);
    }
  }

  // The key an iterator over an ordered container stands at, given the keys it has not passed.
  function LeastId(s: set<Id>): (k: Id)
    requires s != {}
    ensures k in s && forall j | j in s :: k <= j
  {
    LeastIdExists(s);
    var k :| IsLeast(s, k);
    k
  }

  lemma LeastDotExists(s: set<Dot>)
    requires s != {}
    ensures exists k :: k in s && forall j | j in s :: k == j || Less(k, j)
  {
    var k :| k in s;
    var rest := s - {k};
    if rest != {} {
      LeastDotExists(rest);
      var m :| m in rest && forall j | j in rest :: m == j || Less(m, j);
      var least := if Less(k, m) then k else m;
      assert s == rest + {k};
      assert least in s && forall j | j in s :: least == j || Less(least, j);
    } else {
      assert s == {k};
    }
  }

  function LeastDot(s: set<Dot>): (k: Dot)
    requires s != {}
    ensures k in s && forall j | j in s :: k == j || Less(k, j)
  {
    LeastDotExists(s);
    var k :| k in s && forall j | j in s :: k == j || Less(k, j);
    k
  }

  // Where two iterators over ordered containers stand, given the keys they have not passed.
  datatype Turn<K> = Here(key: K) | There(key: K) | Both(key: K)

  method IdTurn(here: set<Id>, there: set<Id>) returns (t: Turn<Id>)
    requires here != {} || there != {}
    ensures t.Here? ==> t.key in here && t.key !in there
    ensures t.There? ==> t.key in there && t.key !in here
    ensures t.Both? ==> t.key in here && t.key in there
  {
    if here != {} && (there == {} || LeastId(here) < LeastId(there)) {
      t := Here(LeastId(here));
    } else if there != {} && (here == {} || LeastId(there) < LeastId(here)) {
      t := There(LeastId(there));
    } else {
      t := Both(LeastId(here));
    }
  }

  method DotTurn(here: set<Dot>, there: set<Dot>) returns (t: Turn<Dot>)
    requires here != {} || there != {}
    ensures t.Here? ==> t.key in here && t.key !in there
    ensures t.There? ==> t.key in there && t.key !in here
    ensures t.Both? ==> t.key in here && t.key in there
  {
    if here != {} && (there == {} || Less(LeastDot(here), LeastDot(there))) {
      t := Here(LeastDot(here));
    } else if there != {} && (here == {} || Less(LeastDot(there), LeastDot(here))) {
      t := There(LeastDot(there));
    } else {
      t := Both(LeastDot(here));
    }
  }

  // ---------------------------------------------------------------- the mutable context

  class DotContext {
    var cc: map<Id, Positive>
    var dc: set<Dot>

    ghost function Value(): Ctx
      reads this
    {
      Ctx(cc, dc)
    }

    constructor ()
      ensures Value() == NO_DOTS
    {
      cc, dc := map[], {};
    }

    method Assign(o: DotContext)
      modifies this
      ensures Value() == old(o.Value())
    {
      cc, dc := o.cc, o.dc;
    }

    predicate DotIn(d: Dot)
      reads this
      ensures DotIn(d) <==> In(Value(), d)
    {
      if d.id in cc && d.n <= cc[d.id] then true else d in dc
    }

    // One pass over the cloud in ascending order. Because of that order a single pass is enough.
    method CompactPass() returns (flag: bool)
      modifies this
      ensures Compacted(Value())
      ensures Value() == Norm(old(Value()))
      ensures |dc| <= |old(dc)|
      ensures flag ==> |dc| < |old(dc)|
    {
      flag := false;
      var rest := dc;
      while rest != {}
        invariant rest <= dc <= old(dc)
        invariant Dots(Value()) == Dots(old(Value()))
        invariant forall d, e | d in dc - rest && e in rest :: Less(d, e)
        invariant forall d | d in dc - rest :: d.n > Top(cc, d.id) + 1
        invariant flag ==> |dc| < |old(dc)|
        invariant |dc| <= |old(dc)|
        decreases rest
      {
        var d := LeastDot(rest);
        ghost var before := Value();
        assert forall e | e in dc - rest :: Less(e, d) && e.n > Top(cc, e.id) + 1;
        if d.id !in cc {
          if d.n == 1 {
            assert Absorb(before, d) == Ctx(cc[d.id := d.n], dc - {d});
            cc, dc := cc[d.id := d.n], dc - {d};
            flag := true;
          }
        } else if d.n == cc[d.id] + 1 {
          assert Absorb(before, d) == Ctx(cc[d.id := d.n], dc - {d});
          cc, dc := cc[d.id := cc[d.id] + 1], dc - {d};
          flag := true;
        } else if d.n <= cc[d.id] {
          assert Absorb(before, d) == Ctx(cc, dc - {d});
          dc := dc - {d};
        }
        rest := rest - {d};
      }
      UniqueNormalForm(Value(), Norm(old(Value())));
    }

    method Compact()
      modifies this
      ensures Value() == Norm(old(Value()))
    {
      var flag := CompactPass();
      while flag
        invariant Value() == Norm(old(Value()))
        decreases |dc|, flag
      {
        flag := CompactPass();
      }
    }

    method MakeDot(id: Id) returns (d: Dot)
      modifies this
      ensures d == NextDot(old(Value()), id)
      ensures Value() == Generated(old(Value()), id)
    {
      if id in cc {
        cc := cc[id := cc[id] + 1];
      } else {
        cc := cc[id := 1];
      }
      d := Dot(id, cc[id]);
    }

    method InsertDot(d: Dot, compactNow: bool)
      modifies this
      ensures var c := Ctx(old(cc), old(dc) + {d}); Value() == if compactNow then Norm(c) else c
    {
      dc := dc + {d};
      if compactNow {
        Compact();
      }
    }

    // Walks both compact parts side by side.
    method JoinCompactPart(o: DotContext)
      requires this != o
      modifies this
      ensures cc == MaxCc(old(cc), o.cc) && dc == old(dc)
    {
      ghost var mine := cc;
      var theirs := o.cc;
      var here, there := cc.Keys, theirs.Keys;
      MaxCcButEnds(mine, theirs);
      while here != {} || there != {}
        invariant Walked(mine, theirs, cc, here, there)
        invariant dc == old(dc)
        decreases here, there
      {
        var turn := IdTurn(here, there);
        WalkedStep(mine, theirs, cc, here, there, turn);
        if turn.Here? {
          here := here - {turn.key};
        } else if turn.There? {
          cc := cc[turn.key := theirs[turn.key]];
          there := there - {turn.key};
        } else {
          cc := cc[turn.key := Max(cc[turn.key], theirs[turn.key])];
          here, there := here - {turn.key}, there - {turn.key};
        }
      }
    }

    method JoinCloud(o: DotContext)
      requires this != o
      modifies this
      ensures cc == old(cc) && dc == old(dc) + o.dc
    {
      var cloud := o.dc;
      while cloud != {}
        invariant cloud <= o.dc && dc == old(dc) + (o.dc - cloud)
        invariant cc == old(cc)
        decreases cloud
      {
        var d := LeastDot(cloud);
        InsertDot(d, false);
        cloud := cloud - {d};
      }
    }

    method Join(o: DotContext)
      modifies this
      ensures this != o ==> Value() == CtxJoin(old(Value()), old(o.Value()))
      ensures this == o ==> Value() == old(Value())
    {
      if this == o {
        return;
      }
      JoinCompactPart(o);
      JoinCloud(o);
      ghost var joined := Value();
      assert forall d: Dot :: In(joined, d) <==> In(old(Value()), d) || In(old(o.Value()), d);
      Compact();
      UniqueNormalForm(Value(), CtxJoin(old(Value()), old(o.Value())));
    }
  }
}

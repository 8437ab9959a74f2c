// The replicated sequence: elements carry positions, bit strings in lexicographic order, and a new
// element gets a position strictly between its neighbours'.
module OrSeqs {
  import opened DotContexts

  type Position = seq<bool>

  // The order of std::vector<bool>: lexicographic, false before true, a proper prefix before the whole.
  predicate Before(a: Position, b: Position) {
    if b == [] then false
    else if a == [] then true
    else if a[0] != b[0] then b[0]
    else Before(a[1..], b[1..])
  }

  predicate EndsInTrue(p: Position) {
    |p| > 0 && p[|p| - 1]
  }

  function Zeros(k: nat): Position {
    seq(k, i => false)
  }

  // ---------------------------------------------------------------- the order

  lemma {:induction false} BeforeTotal(a: Position, b: Position)
    ensures Before(a, b) || Before(b, a) || a == b
    ensures !(Before(a, b) && Before(b, a)) && !Before(a, a)
    decreases |a|
  {
    if a != [] && b != [] {
      BeforeTotal(a[1..], b[1..]);
      if a[0] == b[0] && a[1..] == b[1..] {
        assert a == [a[0]] + a[1..] == b;
      }
    }
    if a != [] {
      BeforeTotal(a[1..], a[1..]);
    }
  }

  lemma {:induction false} BeforeTransitive(a: Position, b: Position, c: Position)
    requires Before(a, b) && Before(b, c)
    ensures Before(a, c)
    decreases |a|
  {
    if a != [] && a[0] == b[0] == c[0] {
      BeforeTransitive(a[1..], b[1..], c[1..]);
    }
  }

  lemma {:induction false} SamePrefix(p: Position, a: Position, b: Position)
    ensures Before(p + a, p + b) <==> Before(a, b)
    decreases |p|
  {
    if p == [] {
      assert p + a == a && p + b == b;
    } else {
      assert (p + a)[1..] == p[1..] + a && (p + b)[1..] == p[1..] + b;
      SamePrefix(p[1..], a, b);
    }
  }

  lemma Extended(l: Position, x: Position)
    requires x != []
    ensures Before(l, l + x)
  {
    SamePrefix(l, [], x);
    assert l + [] == l;
  }

  // If l comes before r without being a prefix of it, so does everything that starts with l.
  lemma {:induction false} BranchedOff(l: Position, r: Position, x: Position)
    requires Before(l, r) && !(l <= r)
    ensures Before(l + x, r)
    decreases |l|
  {
    if l != [] && l[0] == r[0] {
      assert l == [l[0]] + l[1..] && r == [r[0]] + r[1..];
      assert l[1..] <= r[1..] ==> l <= r;
      BranchedOff(l[1..], r[1..], x);
      assert (l + x)[1..] == l[1..] + x;
    }
  }

  // 0^k 1 lies before 0^m 1 t exactly when it has more zeros, or as many and t is not empty.
  lemma {:induction false} ZerosThenOne(k: nat, m: nat, t: Position)
    ensures Before(Zeros(k) + [true], Zeros(m) + [true] + t) <==> k > m || (k == m && t != [])
    decreases k
  {
    var a, b := Zeros(k) + [true], Zeros(m) + [true] + t;
    if k > 0 && m > 0 {
      assert a[1..] == Zeros(k - 1) + [true];
      assert b[1..] == Zeros(m - 1) + [true] + t;
      ZerosThenOne(k - 1, m - 1, t);
    } else if k == 0 && m == 0 {
      assert a[1..] == [] && b[1..] == t;
    }
  }

  // ---------------------------------------------------------------- among

  // r is l followed by nothing but zeros.
  predicate OnlyZerosAfter(l: Position, r: Position) {
    l <= r && forall i | |l| <= i < |r| :: !r[i]
  }

  lemma {:induction false} AllZeros(z: Position)
    requires forall i | 0 <= i < |z| :: !z[i]
    ensures z == Zeros(|z|)
  {
  }

  // Then the refinement in among never gets below r: it would not end.
  lemma {:induction false} NeverBelowZeros(l: Position, m: nat, k: nat)
    ensures !Before(l + (Zeros(k) + [true]), l + Zeros(m))
  {
    SamePrefix(l, Zeros(k) + [true], Zeros(m));
    NotBeforeZeros(k, m);
  }

  lemma {:induction false} NotBeforeZeros(k: nat, m: nat)
    ensures !Before(Zeros(k) + [true], Zeros(m))
    decreases k
  {
    if k > 0 && m > 0 {
      assert (Zeros(k) + [true])[1..] == Zeros(k - 1) + [true];
      assert Zeros(m)[1..] == Zeros(m - 1);
      NotBeforeZeros(k - 1, m - 1);
    }
  }

  // The refinement of l below r ends exactly when r has a one after l, or has branched off from it.
  lemma RefinementEnds(l: Position, r: Position)
    requires Before(l, r)
    ensures (exists k: nat :: Before(l + (Zeros(k) + [true]), r)) <==> !OnlyZerosAfter(l, r)
  {
    if OnlyZerosAfter(l, r) {
      AllZeros(r[|l|..]);
      assert r == l + Zeros(|r| - |l|);
      forall k: nat
        ensures !Before(l + (Zeros(k) + [true]), r)
      {
        NeverBelowZeros(l, |r| - |l|, k);
      }
    } else {
      var k := EnoughZeros(l, r);
      assert Before(l + (Zeros(k) + [true]), r);
    }
  }

  // Where the refinement ends: one zero more than r has after l before its next one.
  ghost function EnoughZeros(l: Position, r: Position): (k: nat)
    requires Before(l, r) && !OnlyZerosAfter(l, r)
    ensures forall j | j >= k :: Before(l + (Zeros(j) + [true]), r)
  {
    if l <= r then
      var i :| |l| <= i < |r| && r[i];
      var m := FirstOne(r, |l|);
      assert forall j | j >= m + 1 :: Before(l + (Zeros(j) + [true]), r) by {
        var t := r[|l| + m + 1..];
        assert r == l + (Zeros(m) + [true] + t);
        forall j | j >= m + 1
          ensures Before(l + (Zeros(j) + [true]), r)
        {
          ZerosThenOne(j, m, t);
          SamePrefix(l, Zeros(j) + [true], Zeros(m) + [true] + t);
        }
      }
      m + 1
    else
      assert forall j :: j >= 0 ==> Before(l + (Zeros(j) + [true]), r) by {
        forall j | j >= 0
          ensures Before(l + (Zeros(j) + [true]), r)
        {
          BranchedOff(l, r, Zeros(j) + [true]);
        }
      }
      0
  }

  ghost function FirstOne(r: Position, from: nat): (m: nat)
    requires exists i :: from <= i < |r| && r[i]
    ensures from + m < |r| && r[from + m]
    ensures forall i | from <= i < from + m :: !r[i]
    decreases |r| - from
  {
    if r[from] then 0 else FirstOne(r, from + 1) + 1
  }

  // A position strictly between l and r that ends in true. The code asserts l before r; that r is
  // not l followed by zeros is what its loop needs to end, and every caller's r ends in true.
  method Among(l: Position, r: Position) returns (res: Position)
    requires Before(l, r) && !OnlyZerosAfter(l, r)
    ensures Before(l, res) && Before(res, r)
    ensures EndsInTrue(res)
  {
    res := [];
    var n := 0;
    var found := false;
    while n <= |l| && !found
      invariant 0 <= n <= |l| + 1
      invariant found ==> (Before(l, res) || l == res) && Before(res, r) && EndsInTrue(res)
      invariant !found && n == |l| + 1 ==> res == l
      decreases |l| + 1 - n, !found
    {
      res := l[..n];
      if n < |l| {
        res := res + [true];
        if !Before(res, l) && Before(res, r) {
          BeforeTotal(l, res);
          found := true;
        }
      }
      n := n + 1;
    }
    if Before(l, res) {
      BeforeTotal(l, l);
      return;
    }
    BeforeTotal(l, l);
    assert res == l;
    ghost var k := 0;
    res := res + [true];
    assert res == l + (Zeros(0) + [true]);
    while !Before(res, r)
      invariant res == l + (Zeros(k) + [true])
      decreases EnoughZeros(l, r) - k
    {
      assert Zeros(k) + [false] == Zeros(k + 1);
      res := res[..|res| - 1] + [false];
      res := res + [true];
      k := k + 1;
    }
    Extended(l, Zeros(k) + [true]);
  }

  // ---------------------------------------------------------------- the sequence

  datatype Item<T> = Item(pos: Position, dot: Dot, val: T)

  predicate InRange(p: Position) {
    EndsInTrue(p) && Before([false], p) && Before(p, [true])
  }

  // Positions strictly increase, end in true and lie between [0] and [1].
  predicate Ordered<T>(l: seq<Item<T>>) {
    && (forall i | 0 <= i < |l| :: InRange(l[i].pos))
    && (forall i, j | 0 <= i < j < |l| :: Before(l[i].pos, l[j].pos))
  }

  function Payloads<T>(l: seq<Item<T>>): (vals: seq<T>)
    ensures |vals| == |l|
  {
    seq(|l|, i requires 0 <= i < |l| => l[i].val)
  }

  // The position ranges of neighbours leave room for one more.
  lemma RoomBetween(l: Position, r: Position)
    requires Before(l, r) && EndsInTrue(r)
    ensures !OnlyZerosAfter(l, r)
  {
    BeforeTotal(l, r);
    assert l <= r && |l| == |r| ==> l == r;
  }

  lemma InsertedInOrder<T>(l: seq<Item<T>>, i: nat, item: Item<T>)
    requires Ordered(l) && i <= |l| && InRange(item.pos)
    requires i > 0 ==> Before(l[i - 1].pos, item.pos)
    requires i < |l| ==> Before(item.pos, l[i].pos)
    ensures Ordered(l[..i] + [item] + l[i..])
    ensures Payloads(l[..i] + [item] + l[i..]) == Payloads(l)[..i] + [item.val] + Payloads(l)[i..]
  {
    var l' := l[..i] + [item] + l[i..];
    forall j, k | 0 <= j < k < |l'|
      ensures Before(l'[j].pos, l'[k].pos)
    {
      if k == i && j < i - 1 {
        BeforeTransitive(l[j].pos, l[i - 1].pos, item.pos);
      } else if j == i && k > i + 1 {
        BeforeTransitive(item.pos, l[i].pos, l[k - 1].pos);
      }
    }
  }

  class OrSeq<T> {
    var l: seq<Item<T>>
    const c: DotContext
    const id: Id

    ghost predicate Valid()
      reads this
    {
      Ordered(l)
    }

    constructor (i: Id)
      ensures Valid() && l == [] && id == i
      ensures fresh(c) && c.Value() == NO_DOTS
    {
      l, id := [], i;
      c := new DotContext();
    }

    // Puts val at index i under a position between lo and hi; the delta carries the new item alone.
    method Place(i: nat, lo: Position, hi: Position, val: T) returns (res: OrSeq<T>)
      requires Valid() && i <= |l|
      requires Before(lo, hi) && EndsInTrue(hi)
      requires if i > 0 then lo == l[i - 1].pos else lo == [false]
      requires if i < |l| then hi == l[i].pos else hi == [true]
      modifies this, c
      ensures Valid()
      ensures Payloads(l) == Payloads(old(l))[..i] + [val] + Payloads(old(l))[i..]
      ensures c.Value() == Generated(old(c.Value()), id)
      ensures |l| == |old(l)| + 1 && l[i].dot == NextDot(old(c.Value()), id)
      ensures l == old(l)[..i] + [l[i]] + old(l)[i..]
      ensures fresh(res) && res.l == [l[i]] && res.c.Value() == DotSet({l[i].dot})
    {
      RoomBetween(lo, hi);
      var pos := Among(lo, hi);
      InsideNeighbours(l, i, lo, pos, hi);
      var dot := c.MakeDot(id);
      var item := Item(pos, dot, val);
      InsertedInOrder(l, i, item);
      l := l[..i] + [item] + l[i..];
      res := new OrSeq(id);
      res.c.InsertDot(dot, true);
      UniqueNormalForm(res.c.Value(), DotSet({dot}));
      res.l := [item];
    }

    method MakeFirst(val: T) returns (res: OrSeq<T>)
      requires Valid() && l == []
      modifies this, c
      ensures Valid() && Payloads(l) == [val]
      ensures c.Value() == Generated(old(c.Value()), id)
      ensures fresh(res) && res.l == l && res.c.Value() == DotSet({NextDot(old(c.Value()), id)})
    {
      res := Place(0, [false], [true], val);
    }

    method PushBack(val: T) returns (res: OrSeq<T>)
      requires Valid()
      modifies this, c
      ensures Valid() && Payloads(l) == Payloads(old(l)) + [val]
      ensures c.Value() == Generated(old(c.Value()), id)
      ensures fresh(res) && |l| > 0 && res.l == [l[|l| - 1]] && res.c.Value() == DotSet({NextDot(old(c.Value()), id)})
    {
      if |l| == 0 {
        res := MakeFirst(val);
      } else {
        res := Place(|l|, l[|l| - 1].pos, [true], val);
      }
    }

    method PushFront(val: T) returns (res: OrSeq<T>)
      requires Valid()
      modifies this, c
      ensures Valid() && Payloads(l) == [val] + Payloads(old(l))
      ensures c.Value() == Generated(old(c.Value()), id)
      ensures fresh(res) && |l| > 0 && res.l == [l[0]] && res.c.Value() == DotSet({NextDot(old(c.Value()), id)})
    {
      if |l| == 0 {
        res := MakeFirst(val);
      } else {
        res := Place(0, [false], l[0].pos, val);
      }
    }

    // i stands for the iterator: before the element at i, or the end.
    method Insert(i: nat, val: T) returns (res: OrSeq<T>)
      requires Valid() && i <= |l|
      modifies this, c
      ensures Valid() && Payloads(l) == Payloads(old(l))[..i] + [val] + Payloads(old(l))[i..]
      ensures c.Value() == Generated(old(c.Value()), id)
      ensures fresh(res) && i < |l| && res.l == [l[i]] && res.c.Value() == DotSet({NextDot(old(c.Value()), id)})
    {
      if i == |l| {
        res := PushBack(val);
      } else if i == 0 {
        res := PushFront(val);
      } else {
        res := Place(i, l[i - 1].pos, l[i].pos, val);
      }
    }

    method Erase(i: nat) returns (res: OrSeq<T>)
      requires Valid() && i <= |l|
      modifies this
      ensures Valid()
      ensures i == |old(l)| ==> l == old(l) && res.c.Value() == NO_DOTS
      ensures i < |old(l)| ==> Payloads(l) == Payloads(old(l))[..i] + Payloads(old(l))[i + 1..]
      ensures i < |old(l)| ==> l == old(l)[..i] + old(l)[i + 1..] && res.c.Value() == DotSet({old(l)[i].dot})
      ensures fresh(res) && res.l == []
    {
      res := new OrSeq(id);
      if i != |l| {
        res.c.InsertDot(l[i].dot, true);
        UniqueNormalForm(res.c.Value(), DotSet({l[i].dot}));
        l := l[..i] + l[i + 1..];
      }
    }
  }

  lemma InsideNeighbours<T>(l: seq<Item<T>>, i: nat, lo: Position, pos: Position, hi: Position)
    requires Ordered(l) && i <= |l|
    requires if i > 0 then lo == l[i - 1].pos else lo == [false]
    requires if i < |l| then hi == l[i].pos else hi == [true]
    requires Before(lo, pos) && Before(pos, hi) && EndsInTrue(pos)
    ensures InRange(pos)
  {
    if i > 0 {
      BeforeTransitive([false], lo, pos);
    }
    if i < |l| {
      BeforeTransitive(pos, hi, [true]);
    }
  }
}

// Finite sums over sets, and maps read as functions that are zero where the map has no entry.
module Sums {

  ghost function Sum<K(!new)>(s: set<K>, f: K -> int): int
    decreases |s|
  {
    if s == {} then 0
    else
      var k :| k in s;
      f(k) + Sum(s - {k}, f)
  }

  // The order of summation does not matter.
  lemma {:induction false} SumRemove<K(!new)>(s: set<K>, f: K -> int, k: K)
    requires k in s
    ensures Sum(s, f) == f(k) + Sum(s - {k}, f)
    decreases |s|
  {
    var j :| j in s && Sum(s, f) == f(j) + Sum(s - {j}, f);
    if j != k {
      SumRemove(s - {j}, f, k);
      SumRemove(s - {k}, f, j);
      assert s - {j} - {k} == s - {k} - {j};
    }
  }

  lemma {:induction false} SumCongruent<K(!new)>(s: set<K>, f: K -> int, g: K -> int)
    requires forall k | k in s :: f(k) == g(k)
    ensures Sum(s, f) == Sum(s, g)
    decreases |s|
  {
    if s != {} {
      var k :| k in s;
      SumRemove(s, f, k);
      SumRemove(s, g, k);
      SumCongruent(s - {k}, f, g);
    }
  }

  lemma {:induction false} SumAdd<K(!new)>(s: set<K>, f: K -> int, g: K -> int, h: K -> int)
    requires forall k | k in s :: h(k) == f(k) + g(k)
    ensures Sum(s, h) == Sum(s, f) + Sum(s, g)
    decreases |s|
  {
    if s != {} {
      var k :| k in s;
      SumRemove(s, f, k);
      SumRemove(s, g, k);
      SumRemove(s, h, k);
      SumAdd(s - {k}, f, g, h);
    }
  }

  lemma {:induction false} SumMonotone<K(!new)>(s: set<K>, f: K -> int, g: K -> int)
    requires forall k | k in s :: f(k) <= g(k)
    ensures Sum(s, f) <= Sum(s, g)
    ensures Sum(s, f) == Sum(s, g) ==> forall k | k in s :: f(k) == g(k)
    decreases |s|
  {
    if s != {} {
      var k :| k in s;
      SumRemove(s, f, k);
      SumRemove(s, g, k);
      SumMonotone(s - {k}, f, g);
    }
  }

  lemma {:induction false} SumZero<K(!new)>(s: set<K>, f: K -> int)
    requires forall k | k in s :: f(k) == 0
    ensures Sum(s, f) == 0
    decreases |s|
  {
    if s != {} {
      var k :| k in s;
      SumRemove(s, f, k);
      SumZero(s - {k}, f);
    }
  }

  lemma SumOnly<K(!new)>(s: set<K>, f: K -> int, k: K)
    requires k in s
    requires forall j | j in s && j != k :: f(j) == 0
    ensures Sum(s, f) == f(k)
  {
    SumRemove(s, f, k);
    SumZero(s - {k}, f);
  }

  // Changing the function at one point.
  lemma SumUpdate<K(!new)>(s: set<K>, f: K -> int, g: K -> int, k: K)
    requires k in s
    requires forall j | j in s && j != k :: f(j) == g(j)
    ensures Sum(s, g) == Sum(s, f) - f(k) + g(k)
  {
    SumRemove(s, f, k);
    SumRemove(s, g, k);
    SumCongruent(s - {k}, f, g);
  }

  lemma {:induction false} SumDisjoint<K(!new)>(s: set<K>, t: set<K>, f: K -> int)
    requires s !! t
    ensures Sum(s + t, f) == Sum(s, f) + Sum(t, f)
    decreases |s|
  {
    if s == {} {
      assert s + t == t;
    } else {
      var k :| k in s;
      SumRemove(s, f, k);
      SumRemove(s + t, f, k);
      assert s + t - {k} == (s - {k}) + t;
      SumDisjoint(s - {k}, t, f);
    }
  }

  // Points where the function is zero may be left out.
  lemma SumExtend<K(!new)>(s: set<K>, t: set<K>, f: K -> int)
    requires s <= t
    requires forall k | k in t - s :: f(k) == 0
    ensures Sum(s, f) == Sum(t, f)
  {
    SumZero(t - s, f);
    SumDisjoint(s, t - s, f);
    assert s + (t - s) == t;
  }

  lemma SumNegate<K(!new)>(s: set<K>, f: K -> int, g: K -> int)
    requires forall k | k in s :: g(k) == -f(k)
    ensures Sum(s, g) == -Sum(s, f)
  {
    var zero: K -> int := k => 0;
    SumAdd(s, f, g, zero);
    SumZero(s, zero);
  }

  // Exchanging two finite sums: a table summed by rows and by columns.
  lemma {:induction false} SumSwap<K(!new), L(!new)>(
    s: set<K>, t: set<L>, row: K -> L -> int, col: L -> K -> int, rows: K -> int, cols: L -> int)
    requires forall k, l | k in s && l in t :: row(k)(l) == col(l)(k)
    requires forall k | k in s :: rows(k) == Sum(t, row(k))
    requires forall l | l in t :: cols(l) == Sum(s, col(l))
    ensures Sum(s, rows) == Sum(t, cols)
    decreases |s|
  {
    if s == {} {
      SumZero(t, cols);
    } else {
      var k :| k in s;
      var rest: L -> int := l => Sum(s - {k}, col(l));
      forall l | l in t
        ensures cols(l) == row(k)(l) + rest(l)
      {
        SumRemove(s, col(l), k);
      }
      SumAdd(t, row(k), rest, cols);
      SumSwap(s - {k}, t, row, col, rows, rest);
      SumRemove(s, rows, k);
    }
  }

  // ---------------------------------------------------------------- maps with default zero

  function Val<K>(m: map<K, int>, k: K): int {
    if k in m then m[k] else 0
  }

  ghost function Total<K(!new)>(m: map<K, int>): int {
    Sum(m.Keys, k => Val(m, k))
  }

  // Entries outside the keys contribute nothing.
  lemma TotalOver<K(!new)>(m: map<K, int>, s: set<K>)
    requires m.Keys <= s
    ensures Total(m) == Sum(s, k => Val(m, k))
  {
    SumExtend(m.Keys, s, k => Val(m, k));
  }

  lemma TotalSingle<K(!new)>(k: K, v: int)
    ensures Total(map[k := v]) == v
    ensures Total<K>(map[]) == 0
  {
    var m := map[k := v];
    SumOnly(m.Keys, j => Val(m, j), k);
  }
}

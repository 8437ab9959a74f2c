// The disjoint-set forest behind the connectivity figures: path halving and union by size.
module UnionFinds {
  import opened Basics

  // ---------------------------------------------------------------- the forest as a value

  // rep names the root of every element. A parent lies in the same class, and only a root is its
  // own parent or its own representative; a parent weighs at least twice its child.
  ghost predicate Placed(parent: seq<int>, size: seq<int>, rep: seq<int>, x: int)
    requires |parent| == |size| == |rep| && 0 <= x < |parent|
  {
    && 0 <= parent[x] < |parent| && 0 <= rep[x] < |parent|
    && rep[parent[x]] == rep[x] && rep[rep[x]] == rep[x]
    && (parent[x] == x <==> rep[x] == x)
    && 1 <= size[x] <= |parent|
    && (parent[x] != x ==> size[parent[x]] >= 2 * size[x])
  }

  ghost predicate Rooted(parent: seq<int>, size: seq<int>, rep: seq<int>) {
    && |parent| == |size| == |rep|
    && forall x {:trigger Placed(parent, size, rep, x)} | 0 <= x < |parent| :: Placed(parent, size, rep, x)
  }

  ghost function Class(rep: seq<int>, r: int): set<int> {
    set x | 0 <= x < |rep| && rep[x] == r
  }

  // A root's size is the number of elements of its class.
  ghost predicate Counted(size: seq<int>, rep: seq<int>) {
    |size| == |rep| && forall r {:trigger Class(rep, r)} | 0 <= r < |rep| && rep[r] == r :: size[r] == |Class(rep, r)|
  }

  ghost predicate Forest(parent: seq<int>, size: seq<int>, rep: seq<int>) {
    Rooted(parent, size, rep) && Counted(size, rep)
  }

  // The partition is what counts: which elements are together.
  ghost predicate Together(rep: seq<int>, x: int, y: int) {
    0 <= x < |rep| && 0 <= y < |rep| && rep[x] == rep[y]
  }

  ghost predicate Merges(rep: seq<int>, rep': seq<int>, a: int, b: int) {
    && |rep'| == |rep|
    && forall x, y | 0 <= x < |rep| && 0 <= y < |rep| ::
         Together(rep', x, y) <==>
           || Together(rep, x, y)
           || (Together(rep, x, a) && Together(rep, y, b))
           || (Together(rep, x, b) && Together(rep, y, a))
  }

  // One halving: a skips its parent, and weighs at most a quarter of its new parent unless that
  // is a root.
  lemma HalvingKeepsForest(parent: seq<int>, size: seq<int>, rep: seq<int>, a: int)
    requires Rooted(parent, size, rep) && 0 <= a < |parent| && parent[a] != a
    ensures 0 <= parent[a] < |parent| && 0 <= parent[parent[a]] < |parent|
    ensures Rooted(parent[a := parent[parent[a]]], size, rep)
    ensures rep[parent[parent[a]]] == rep[a]
    ensures 2 * size[a] <= size[parent[parent[a]]] <= |parent|
    ensures parent[parent[parent[a]]] == parent[parent[a]] || size[parent[parent[a]]] >= 4 * size[a]
  {
    assert Placed(parent, size, rep, a);
    assert Placed(parent, size, rep, parent[a]);
    var q := parent[parent[a]];
    assert Placed(parent, size, rep, q);
    var parent' := parent[a := q];
    forall x | 0 <= x < |parent|
      ensures Placed(parent', size, rep, x)
    {
      assert Placed(parent, size, rep, x);
    }
  }

  // The light root rb is hung below ra.
  ghost function Hung(rep: seq<int>, ra: int, rb: int): (r: seq<int>)
    ensures |r| == |rep|
  {
    seq(|rep|, x requires 0 <= x < |rep| => if rep[x] == rb then ra else rep[x])
  }

  lemma UnionKeepsForest(parent: seq<int>, size: seq<int>, rep: seq<int>, ra: int, rb: int)
    requires Forest(parent, size, rep)
    requires 0 <= ra < |rep| && 0 <= rb < |rep| && ra != rb && rep[ra] == ra && rep[rb] == rb
    requires size[ra] >= size[rb]
    ensures Forest(parent[rb := ra], size[ra := size[ra] + size[rb]], Hung(rep, ra, rb))
  {
    assert Placed(parent, size, rep, ra) && Placed(parent, size, rep, rb);
    CountsAdd(size, rep, ra, rb);
    var parent', size', rep' := parent[rb := ra], size[ra := size[ra] + size[rb]], Hung(rep, ra, rb);
    forall x | 0 <= x < |parent|
      ensures Placed(parent', size', rep', x)
    {
      assert Placed(parent, size, rep, x) && Placed(parent, size, rep, parent[x]);
    }
  }

  lemma CountsAdd(size: seq<int>, rep: seq<int>, ra: int, rb: int)
    requires Counted(size, rep)
    requires 0 <= ra < |rep| && 0 <= rb < |rep| && ra != rb && rep[ra] == ra && rep[rb] == rb
    ensures Counted(size[ra := size[ra] + size[rb]], Hung(rep, ra, rb))
    ensures size[ra] + size[rb] <= |rep|
  {
    var rep' := Hung(rep, ra, rb);
    assert Class(rep', ra) == Class(rep, ra) + Class(rep, rb);
    assert Class(rep, ra) !! Class(rep, rb);
    SizeAtMost(Class(rep', ra), |rep|);
    forall r | 0 <= r < |rep| && rep'[r] == r && r != ra
      ensures Class(rep', r) == Class(rep, r)
    {
    }
  }

  lemma {:induction false} SizeAtMost(s: set<int>, n: nat)
    requires forall x | x in s :: 0 <= x < n
    ensures |s| <= n
  {
    if n == 0 {
      assert forall x :: x !in s;
      assert s == {};
    } else {
      SizeAtMost(s - {n - 1}, n - 1);
      assert s <= (s - {n - 1}) + {n - 1};
      Subset(s, (s - {n - 1}) + {n - 1});
    }
  }

  lemma {:induction false} Subset<T>(s: set<T>, t: set<T>)
    requires s <= t
    ensures |s| <= |t|
  {
    assert t == s + (t - s);
  }

  lemma HungMerges(rep: seq<int>, ra: int, rb: int, a: int, b: int)
    requires 0 <= a < |rep| && 0 <= b < |rep| && ra != rb
    requires (rep[a] == ra && rep[b] == rb) || (rep[a] == rb && rep[b] == ra)
    ensures Merges(rep, Hung(rep, ra, rb), a, b)
  {
  }

  // ---------------------------------------------------------------- the arrays

  class UnionFind {
    const parent: array<int>
    const size: array<int>
    ghost var rep: seq<int>

    ghost predicate Valid()
      reads this, parent, size
    {
      parent != size && Forest(parent[..], size[..], rep)
    }

    constructor (n: nat)
      ensures Valid() && fresh(parent) && fresh(size)
      ensures rep == seq(n, x => x)
    {
      parent := new int[n](x => x);
      size := new int[n](_ => 1);
      rep := seq(n, x => x);
      new;
      forall r | 0 <= r < n
        ensures Class(rep, r) == {r}
      {
      }
    }

    // The root of a; the partition stands. With steps rounds of the loop the tree was at least
    // 2^(2 * steps - 1) elements large, so steps is at most (log2(n) + 1) / 2.
    method Find(start: int) returns (root: int, ghost steps: nat)
      requires Valid() && 0 <= start < parent.Length
      modifies parent
      ensures Valid() && root == rep[start]
      ensures steps > 0 ==> Pow2(2 * steps - 1) <= parent.Length
    {
      var a := start;
      steps := 0;
      assert Placed(parent[..], size[..], rep, a);
      while parent[a] != a
        invariant Valid() && 0 <= a < parent.Length && rep[a] == rep[start]
        invariant parent[a] != a ==> Pow2(2 * steps) <= size[a]
        invariant steps > 0 ==> Pow2(2 * steps - 1) <= size[a]
        invariant size[a] <= parent.Length
        decreases parent.Length - size[a]
      {
        HalvingKeepsForest(parent[..], size[..], rep, a);
        ghost var was := parent[..];
        parent[a] := parent[parent[a]];
        assert parent[..] == was[a := was[was[a]]];
        a := parent[a];
        steps := steps + 1;
        assert Pow2(2 * steps) == 2 * Pow2(2 * steps - 1) && Pow2(2 * steps - 1) == 2 * Pow2(2 * steps - 2);
      }
      assert Placed(parent[..], size[..], rep, a);
      root := a;
    }

    // Exactly the classes of a and b become one.
    method Union(a: int, b: int)
      requires Valid() && 0 <= a < parent.Length && 0 <= b < parent.Length
      modifies this, parent, size
      ensures Valid() && Merges(old(rep), rep, a, b)
      ensures forall x | 0 <= x < |rep| :: rep[x] in {old(rep)[x], old(rep)[a], old(rep)[b]}
    {
      assert Placed(parent[..], size[..], rep, a) && Placed(parent[..], size[..], rep, b);
      var ra, _ := Find(a);
      var rb, _ := Find(b);
      if ra == rb {
        return;
      }
      if size[ra] < size[rb] {
        ra, rb := rb, ra;
      }
      UnionKeepsForest(parent[..], size[..], rep, ra, rb);
      HungMerges(rep, ra, rb, a, b);
      ghost var parent0, size0 := parent[..], size[..];
      parent[rb] := ra;
      size[ra] := size[ra] + size[rb];
      rep := Hung(rep, ra, rb);
      assert parent[..] == parent0[rb := ra] && size[..] == size0[ra := size0[ra] + size0[rb]];
    }
  }
}

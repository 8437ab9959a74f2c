// Connectivity of one snapshot of positions: who is in range of whom, and which nodes can reach
// each other hop by hop.
module RangeGraphs {
  import opened Basics
  import opened UnionFinds

  // The arithmetic of the coordinates: floating point, with its rounding, or exact.
  datatype Arithmetic<!F> = Arithmetic(sub: (F, F) -> F, mul: (F, F) -> F, add: (F, F) -> F, atMost: (F, F) -> bool)

  ghost predicate BlindAt<F>(ar: Arithmetic<F>, a: F, b: F) {
    ar.mul(ar.sub(a, b), ar.sub(a, b)) == ar.mul(ar.sub(b, a), ar.sub(b, a))
  }

  // All that matters of it: the square of a difference does not depend on the order of its operands.
  ghost predicate SignBlind<F(!new)>(ar: Arithmetic<F>) {
    forall a, b :: BlindAt(ar, a, b)
  }

  function Times(round: real -> real, a: real, b: real): real {
    round(a * b)
  }

  // Exact results, rounded.
  function Rounded(round: real -> real): Arithmetic<real> {
    Arithmetic((a: real, b: real) => round(a - b), (a: real, b: real) => Times(round, a, b),
               (a: real, b: real) => round(a + b), (a: real, b: real) => a <= b)
  }

  ghost predicate OddAt(round: real -> real, x: real) {
    round(-x) == -round(x)
  }

  // So it is for every arithmetic that rounds exact results symmetrically about zero, as IEEE 754
  // rounds to nearest, and as no rounding at all does.
  lemma RoundedIsSignBlind(round: real -> real)
    requires forall x :: OddAt(round, x)
    ensures SignBlind(Rounded(round))
  {
    forall a: real, b: real
      ensures BlindAt(Rounded(round), a, b)
    {
      var ar, x, y := Rounded(round), round(a - b), round(b - a);
      assert OddAt(round, a - b) && b - a == -(a - b) && y == -x;
      RoundedSquare(round, x, y);
      assert ar.sub(a, b) == x && ar.sub(b, a) == y;
    }
  }

  lemma RoundedSquare(round: real -> real, x: real, y: real)
    requires y == -x
    ensures Times(round, x, x) == Times(round, y, y)
  {
    var p, q := x * x, y * y;
    SameSquare(x, y);
    assert round(p) == round(q);
  }

  lemma SameSquare(x: real, y: real)
    requires y == -x
    ensures x * x == y * y
  {
  }

  // A node without two finite coordinates is None.
  type Position<F> = Option<(F, F)>

  // ---------------------------------------------------------------- graphs

  // Nodes 0, ..., n - 1.
  datatype Graph = Graph(n: nat, near: (int, int) -> bool)

  ghost predicate Symmetric(g: Graph) {
    forall i, j :: g.near(i, j) == g.near(j, i)
  }

  ghost predicate IsPath(g: Graph, path: seq<int>) {
    && path != []
    && (forall k | 0 <= k < |path| :: 0 <= path[k] < g.n)
    && forall k | 0 <= k < |path| - 1 :: g.near(path[k], path[k + 1])
  }

  ghost predicate Joins(g: Graph, path: seq<int>, a: int, b: int) {
    IsPath(g, path) && path[0] == a && path[|path| - 1] == b
  }

  ghost predicate Connected(g: Graph, a: int, b: int) {
    exists path :: Joins(g, path, a, b)
  }

  lemma ConnectedSelf(g: Graph, a: int)
    requires 0 <= a < g.n
    ensures Connected(g, a, a)
  {
    assert Joins(g, [a], a, a);
  }

  lemma ConnectedEdge(g: Graph, a: int, b: int)
    requires 0 <= a < g.n && 0 <= b < g.n && g.near(a, b)
    ensures Connected(g, a, b)
  {
    assert Joins(g, [a, b], a, b);
  }

  lemma ConnectedOn(g: Graph, a: int, b: int, c: int)
    requires Connected(g, a, b) && Connected(g, b, c)
    ensures Connected(g, a, c)
  {
    var p, q :| Joins(g, p, a, b) && Joins(g, q, b, c);
    assert Joins(g, p + q[1..], a, c);
  }

  lemma ConnectedBack(g: Graph, a: int, b: int)
    requires Symmetric(g) && Connected(g, a, b)
    ensures Connected(g, b, a)
  {
    var p :| Joins(g, p, a, b);
    var q := seq(|p|, k requires 0 <= k < |p| => p[|p| - 1 - k]);
    assert Joins(g, q, b, a);
  }

  ghost function Component(g: Graph, a: int): set<int> {
    set b | 0 <= b < g.n && Connected(g, a, b)
  }

  ghost function Components(g: Graph): set<set<int>> {
    set a | 0 <= a < g.n :: Component(g, a)
  }

  function Neighbours(g: Graph, a: int): set<int> {
    set b | 0 <= b < g.n && b != a && g.near(a, b)
  }

  // ---------------------------------------------------------------- what union-find computes

  // The classes joined so far are connected, and the edges seen so far lie within classes.
  ghost predicate Sound(g: Graph, rep: seq<int>) {
    |rep| == g.n && forall x {:trigger rep[x]} | 0 <= x < g.n :: 0 <= rep[x] < g.n && Connected(g, x, rep[x])
  }

  ghost predicate Seen(g: Graph, rep: seq<int>, a: int, b: int) {
    forall i, j {:trigger Together(rep, i, j)} |
      0 <= i < j < g.n && g.near(i, j) && (i < a || (i == a && j < b)) :: Together(rep, i, j)
  }

  lemma UnionIsSound(g: Graph, rep: seq<int>, rep': seq<int>, a: int, b: int)
    requires Symmetric(g) && Sound(g, rep) && 0 <= a < g.n && 0 <= b < g.n && g.near(a, b)
    requires |rep'| == |rep| && Merges(rep, rep', a, b)
    requires forall x | 0 <= x < |rep| :: rep'[x] in {rep[x], rep[a], rep[b]}
    requires forall x {:trigger Idempotent(rep', x)} | 0 <= x < |rep'| :: Idempotent(rep', x)
    ensures Sound(g, rep')
  {
    forall x | 0 <= x < g.n
      ensures Connected(g, x, rep'[x])
    {
      ConnectedEdge(g, a, b);
      ConnectedBack(g, a, b);
      var r := rep'[x];
      assert Idempotent(rep', x) && Together(rep', x, r);
      MergedIsConnected(g, rep, a, b, x, r);
      MergedIsConnected(g, rep, b, a, x, r);
      if Together(rep, x, r) {
        SoundIsConnected(g, rep, x, r);
      }
    }
  }

  lemma SoundIsConnected(g: Graph, rep: seq<int>, x: int, y: int)
    requires Symmetric(g) && Sound(g, rep) && Together(rep, x, y)
    ensures Connected(g, x, y)
  {
    ConnectedBack(g, y, rep[y]);
    ConnectedOn(g, x, rep[x], y);
  }

  lemma MergedIsConnected(g: Graph, rep: seq<int>, a: int, b: int, x: int, y: int)
    requires Symmetric(g) && Sound(g, rep) && Connected(g, a, b)
    ensures Together(rep, x, a) && Together(rep, y, b) ==> Connected(g, x, y)
  {
    if Together(rep, x, a) && Together(rep, y, b) {
      SoundIsConnected(g, rep, x, a);
      SoundIsConnected(g, rep, b, y);
      ConnectedOn(g, x, a, b);
      ConnectedOn(g, x, b, y);
    }
  }

  lemma {:induction false} PathStaysTogether(g: Graph, rep: seq<int>, path: seq<int>)
    requires |rep| == g.n && Symmetric(g) && Seen(g, rep, g.n, 0) && IsPath(g, path)
    ensures Together(rep, path[0], path[|path| - 1])
  {
    if |path| > 1 {
      PathStaysTogether(g, rep, path[..|path| - 1]);
      var i, j := path[|path| - 2], path[|path| - 1];
      assert g.near(i, j) && g.near(j, i);
      assert i < j ==> Together(rep, i, j);
      assert j < i ==> Together(rep, j, i);
    }
  }

  // Once every edge is seen, two nodes are in one class exactly when they are connected.
  lemma TogetherIsConnected(g: Graph, rep: seq<int>, x: int, y: int)
    requires Symmetric(g) && Sound(g, rep) && Seen(g, rep, g.n, 0) && 0 <= x < g.n && 0 <= y < g.n
    ensures Together(rep, x, y) <==> Connected(g, x, y)
  {
    if Together(rep, x, y) {
      SoundIsConnected(g, rep, x, y);
    }
    if Connected(g, x, y) {
      var path :| Joins(g, path, x, y);
      PathStaysTogether(g, rep, path);
    }
  }

  function Image<A, B(==)>(s: set<A>, f: A -> B): set<B> {
    set x | x in s :: f(x)
  }

  lemma {:induction false} InjectiveImage<A, B>(s: set<A>, f: A -> B)
    requires forall x, y | x in s && y in s && f(x) == f(y) :: x == y
    ensures |Image(s, f)| == |s|
  {
    if x :| x in s {
      InjectiveImage(s - {x}, f);
      assert Image(s, f) == Image(s - {x}, f) + {f(x)};
    } else {
      assert Image(s, f) == {};
    }
  }

  lemma ClassIsComponent(g: Graph, rep: seq<int>, x: int)
    requires Symmetric(g) && Sound(g, rep) && Seen(g, rep, g.n, 0) && 0 <= x < g.n
    ensures Class(rep, rep[x]) == Component(g, x)
  {
    forall y | 0 <= y < g.n
      ensures rep[y] == rep[x] <==> Connected(g, x, y)
    {
      TogetherIsConnected(g, rep, x, y);
    }
  }

  ghost predicate Idempotent(rep: seq<int>, x: int)
    requires 0 <= x < |rep|
  {
    0 <= rep[x] < |rep| && rep[rep[x]] == rep[x]
  }

  // Then class sizes are component sizes, and there are as many roots as components.
  lemma RootsAreComponents(g: Graph, rep: seq<int>)
    requires Symmetric(g) && Sound(g, rep) && Seen(g, rep, g.n, 0)
    requires forall x {:trigger Idempotent(rep, x)} | 0 <= x < g.n :: Idempotent(rep, x)
    ensures |set x | 0 <= x < g.n :: rep[x]| == |Components(g)|
  {
    var roots := set x | 0 <= x < g.n :: rep[x];
    forall r | r in roots
      ensures r in Class(rep, r)
    {
      var x :| 0 <= x < g.n && rep[x] == r;
      assert Idempotent(rep, x);
    }
    hide Sound, Seen, Connected, Idempotent;
    var members: int -> set<int> := r => Class(rep, r);
    InjectiveImage(roots, members);
    var classes := Image(roots, members);
    forall x | 0 <= x < g.n
      ensures members(rep[x]) == Component(g, x)
    {
      ClassIsComponent(g, rep, x);
    }
    assert classes == Components(g);
  }

  // ---------------------------------------------------------------- the snapshot

  function Square<F>(ar: Arithmetic<F>, p: (F, F), q: (F, F)): F {
    var dx, dy := ar.sub(p.0, q.0), ar.sub(p.1, q.1);
    ar.add(ar.mul(dx, dx), ar.mul(dy, dy))
  }

  // The nodes with a position, renumbered.
  function Compacted<F(!new)>(ar: Arithmetic<F>, p: seq<(F, F)>, r2: F): Graph {
    Graph(|p|, (i, j) => 0 <= i < |p| && 0 <= j < |p| && i != j && ar.atMost(Square(ar, p[i], p[j]), r2))
  }

  // The nodes as numbered by the caller: one without a position is near nobody.
  function RangeGraph<F(!new)>(ar: Arithmetic<F>, pos: seq<Position<F>>, range: F): Graph {
    Graph(|pos|, (i, j) =>
      && 0 <= i < |pos| && 0 <= j < |pos| && i != j && pos[i].Some? && pos[j].Some?
      && ar.atMost(Square(ar, pos[i].value, pos[j].value), ar.mul(range, range)))
  }

  lemma CompactedIsSymmetric<F(!new)>(ar: Arithmetic<F>, p: seq<(F, F)>, r2: F)
    requires SignBlind(ar)
    ensures Symmetric(Compacted(ar, p, r2))
  {
    forall i, j | 0 <= i < |p| && 0 <= j < |p|
      ensures Square(ar, p[i], p[j]) == Square(ar, p[j], p[i])
    {
      assert BlindAt(ar, p[i].0, p[j].0) && BlindAt(ar, p[i].1, p[j].1);
    }
  }

  method Degree<F(!new)>(ar: Arithmetic<F>, p: seq<(F, F)>, r2: F, i: int) returns (degree: nat)
    requires 0 <= i < |p|
    ensures degree == |Neighbours(Compacted(ar, p, r2), i)|
  {
    degree := 0;
    ghost var g := Compacted(ar, p, r2);
    ghost var seen: set<int> := {};
    for j := 0 to |p|
      invariant seen == set b | 0 <= b < j && b != i && g.near(i, b)
      invariant degree == |seen|
    {
      if j != i && ar.atMost(Square(ar, p[i], p[j]), r2) {
        degree := degree + 1;
        seen := seen + {j};
      }
    }
    assert seen == Neighbours(g, i);
  }

  // Every edge of the upper triangle, row by row, into the forest.
  method JoinEdges<F(!new)>(ar: Arithmetic<F>, p: seq<(F, F)>, r2: F) returns (uf: UnionFind)
    requires SignBlind(ar)
    ensures fresh(uf) && fresh(uf.parent) && fresh(uf.size)
    ensures uf.Valid() && Sound(Compacted(ar, p, r2), uf.rep) && Seen(Compacted(ar, p, r2), uf.rep, |p|, 0)
  {
    uf := new UnionFind(|p|);
    ghost var g := Compacted(ar, p, r2);
    CompactedIsSymmetric(ar, p, r2);
    forall x | 0 <= x < g.n
      ensures Connected(g, x, uf.rep[x])
    {
      ConnectedSelf(g, x);
    }
    for a := 0 to |p|
      invariant fresh(uf.parent) && fresh(uf.size)
      invariant uf.Valid() && Sound(g, uf.rep) && Seen(g, uf.rep, a, 0)
    {
      assert Seen(g, uf.rep, a, a + 1);
      for b := a + 1 to |p|
        invariant fresh(uf.parent) && fresh(uf.size)
        invariant uf.Valid() && Sound(g, uf.rep) && Seen(g, uf.rep, a, b)
      {
        if ar.atMost(Square(ar, p[a], p[b]), r2) {
          ghost var rep := uf.rep;
          uf.Union(a, b);
          RepIsIdempotent(uf);
          UnionIsSound(g, rep, uf.rep, a, b);
          SeenOneMore(g, rep, uf.rep, a, b);
        }
      }
    }
  }

  lemma SeenOneMore(g: Graph, rep: seq<int>, rep': seq<int>, a: int, b: int)
    requires |rep| == g.n && 0 <= a < b < g.n && Seen(g, rep, a, b) && Merges(rep, rep', a, b)
    ensures Seen(g, rep', a, b + 1)
  {
  }

  lemma RepIsIdempotent(uf: UnionFind)
    requires uf.Valid()
    ensures forall x | 0 <= x < |uf.rep| :: Idempotent(uf.rep, x)
  {
    forall x | 0 <= x < |uf.rep|
      ensures Idempotent(uf.rep, x)
    {
      assert Placed(uf.parent[..], uf.size[..], uf.rep, x);
    }
  }

  // Degrees, component sizes and the number of components of the renumbered nodes.
  method Figures<F(!new)>(ar: Arithmetic<F>, p: seq<(F, F)>, r2: F)
    returns (degrees: seq<nat>, sizes: seq<nat>, components: nat)
    requires SignBlind(ar)
    ensures |degrees| == |sizes| == |p|
    ensures forall i | 0 <= i < |p| :: degrees[i] == |Neighbours(Compacted(ar, p, r2), i)|
    ensures forall i | 0 <= i < |p| :: sizes[i] == |Component(Compacted(ar, p, r2), i)|
    ensures components == |Components(Compacted(ar, p, r2))|
  {
    ghost var g := Compacted(ar, p, r2);
    CompactedIsSymmetric(ar, p, r2);
    degrees := [];
    for i := 0 to |p|
      invariant |degrees| == i && forall j | 0 <= j < i :: degrees[j] == |Neighbours(g, j)|
    {
      var degree := Degree(ar, p, r2, i);
      degrees := degrees + [degree];
    }
    var uf := JoinEdges(ar, p, r2);
    ghost var rep := uf.rep;
    RepIsIdempotent(uf);
    RootsAreComponents(g, rep);
    sizes := [];
    var roots: set<int> := {};
    for i := 0 to |p|
      invariant uf.Valid() && uf.rep == rep && fresh(uf.parent)
      invariant roots == set x | 0 <= x < i :: rep[x]
      invariant |sizes| == i && forall j | 0 <= j < i :: sizes[j] == |Component(g, j)|
    {
      var root, _ := uf.Find(i);
      ClassIsComponent(g, rep, i);
      assert Idempotent(rep, i);
      assert uf.size[..][root] == |Class(rep, root)|;
      roots := roots + {root};
      sizes := sizes + [uf.size[root]];
    }
    components := |roots|;
  }

  // ---------------------------------------------------------------- renumbering

  // h is the part of g on the nodes listed in idx; the other nodes of g have no edges.
  ghost predicate Embeds(h: Graph, g: Graph, idx: seq<int>) {
    && |idx| == h.n
    && (forall i | 0 <= i < h.n :: 0 <= idx[i] < g.n)
    && (forall i, j | 0 <= i < h.n && 0 <= j < h.n && idx[i] == idx[j] :: i == j)
    && (forall i, j | 0 <= i < h.n && 0 <= j < h.n && i != j :: h.near(i, j) == g.near(idx[i], idx[j]))
    && (forall x, y | 0 <= x < g.n && 0 <= y < g.n && g.near(x, y) :: x in idx && y in idx && x != y)
    && (forall i, j | h.near(i, j) :: i != j)
  }

  ghost function Numbered(idx: seq<int>): int -> int {
    i => if 0 <= i < |idx| then idx[i] else 0
  }

  ghost function Place(idx: seq<int>, x: int): (i: int)
    requires x in idx
    ensures 0 <= i < |idx| && idx[i] == x
  {
    var i :| 0 <= i < |idx| && idx[i] == x;
    i
  }

  lemma {:induction false} PathOut(h: Graph, g: Graph, idx: seq<int>, path: seq<int>)
    requires Embeds(h, g, idx) && IsPath(h, path)
    ensures IsPath(g, seq(|path|, k requires 0 <= k < |path| => idx[path[k]]))
  {
    var out := seq(|path|, k requires 0 <= k < |path| => idx[path[k]]);
    forall k | 0 <= k < |out| - 1
      ensures g.near(out[k], out[k + 1])
    {
      assert h.near(path[k], path[k + 1]);
    }
  }

  lemma {:induction false} PathBack(h: Graph, g: Graph, idx: seq<int>, path: seq<int>)
    requires Embeds(h, g, idx) && IsPath(g, path) && path[0] in idx
    ensures forall k | 0 <= k < |path| :: path[k] in idx
    ensures IsPath(h, seq(|path|, k requires 0 <= k < |path| => Place(idx, path[k])))
  {
    forall k | 0 <= k < |path|
      ensures path[k] in idx
    {
      if k > 0 {
        assert g.near(path[k - 1], path[k - 1 + 1]);
      }
    }
    var back := seq(|path|, k requires 0 <= k < |path| => Place(idx, path[k]));
    forall k | 0 <= k < |back| - 1
      ensures h.near(back[k], back[k + 1])
    {
      assert g.near(path[k], path[k + 1]);
    }
  }

  lemma EmbeddedConnected(h: Graph, g: Graph, idx: seq<int>, i: int, x: int)
    requires Embeds(h, g, idx) && 0 <= i < h.n
    ensures Connected(g, idx[i], x) <==> x in idx && Connected(h, i, Place(idx, x))
  {
    if Connected(g, idx[i], x) {
      var path :| Joins(g, path, idx[i], x);
      PathBack(h, g, idx, path);
      var back := seq(|path|, k requires 0 <= k < |path| => Place(idx, path[k]));
      assert Joins(h, back, i, Place(idx, x));
    }
    if x in idx && Connected(h, i, Place(idx, x)) {
      var path :| Joins(h, path, i, Place(idx, x));
      PathOut(h, g, idx, path);
      var out := seq(|path|, k requires 0 <= k < |path| => idx[path[k]]);
      assert Joins(g, out, idx[i], x);
    }
  }

  // Renumbering keeps components and neighbourhoods, so it keeps their sizes.
  lemma EmbeddedSizes(h: Graph, g: Graph, idx: seq<int>, i: int)
    requires Embeds(h, g, idx) && 0 <= i < h.n
    ensures Component(g, idx[i]) == Image(Component(h, i), Numbered(idx))
    ensures |Component(g, idx[i])| == |Component(h, i)|
    ensures |Neighbours(g, idx[i])| == |Neighbours(h, i)|
  {
    forall x | 0 <= x < g.n
      ensures x in Component(g, idx[i]) <==> x in Image(Component(h, i), Numbered(idx))
    {
      EmbeddedConnected(h, g, idx, i, x);
      if x in idx && Connected(h, i, Place(idx, x)) {
        assert Place(idx, x) in Component(h, i);
      }
    }
    assert Component(g, idx[i]) == Image(Component(h, i), Numbered(idx));
    InjectiveImage(Component(h, i), Numbered(idx));
    forall x | 0 <= x < g.n
      ensures x in Neighbours(g, idx[i]) <==> x in Image(Neighbours(h, i), Numbered(idx))
    {
      if x in Neighbours(g, idx[i]) {
        assert Place(idx, x) in Neighbours(h, i);
      }
    }
    assert Neighbours(g, idx[i]) == Image(Neighbours(h, i), Numbered(idx));
    InjectiveImage(Neighbours(h, i), Numbered(idx));
  }

  // The components of g that hold a listed node.
  ghost function ListedComponents(g: Graph, nodes: set<int>): set<set<int>> {
    set x | x in nodes :: Component(g, x)
  }

  lemma EmbeddedComponents(h: Graph, g: Graph, idx: seq<int>)
    requires Embeds(h, g, idx)
    ensures |ListedComponents(g, set x | x in idx)| == |Components(h)|
  {
    var out: set<int> -> set<int> := s => Image(s, Numbered(idx));
    forall c, d | c in Components(h) && d in Components(h) && out(c) == out(d)
      ensures c == d
    {
      SameImage(c, d, idx);
    }
    InjectiveImage(Components(h), out);
    forall i | 0 <= i < h.n
      ensures out(Component(h, i)) == Component(g, idx[i])
    {
      EmbeddedSizes(h, g, idx, i);
    }
    assert ListedComponents(g, set x | x in idx) == Image(Components(h), out);
  }

  lemma SameImage(c: set<int>, d: set<int>, idx: seq<int>)
    requires forall i | i in c || i in d :: 0 <= i < |idx|
    requires forall i, j | 0 <= i < |idx| && 0 <= j < |idx| && idx[i] == idx[j] :: i == j
    requires Image(c, Numbered(idx)) == Image(d, Numbered(idx))
    ensures c == d
  {
    forall i | i in c
      ensures i in d
    {
      assert Numbered(idx)(i) in Image(c, Numbered(idx));
      var j :| j in d && Numbered(idx)(j) == Numbered(idx)(i);
    }
    forall i | i in d
      ensures i in c
    {
      assert Numbered(idx)(i) in Image(d, Numbered(idx));
      var j :| j in c && Numbered(idx)(j) == Numbered(idx)(i);
    }
  }

  ghost function Located<F>(pos: seq<Position<F>>): set<int> {
    set i | 0 <= i < |pos| && pos[i].Some?
  }

  ghost predicate Listed<F>(pos: seq<Position<F>>, n: nat, idx: seq<int>, p: seq<(F, F)>)
    requires n <= |pos|
  {
    && |p| == |idx|
    && (forall k | 0 <= k < |idx| :: 0 <= idx[k] < n && pos[idx[k]] == Some(p[k]))
    && (forall j, k | 0 <= j < k < |idx| :: idx[j] < idx[k])
    && (forall i | 0 <= i < n && pos[i].Some? :: i in idx)
  }

  method Locate<F>(pos: seq<Position<F>>) returns (idx: seq<int>, p: seq<(F, F)>)
    ensures Listed(pos, |pos|, idx, p)
  {
    idx, p := [], [];
    for i := 0 to |pos|
      invariant Listed(pos, i, idx, p)
    {
      if pos[i].Some? {
        ghost var before := idx;
        idx, p := idx + [i], p + [pos[i].value];
        assert idx[|before|] == i && forall j | j in before :: j in idx;
      }
    }
  }

  lemma ListedEmbeds<F(!new)>(ar: Arithmetic<F>, pos: seq<Position<F>>, range: F, idx: seq<int>, p: seq<(F, F)>)
    requires Listed(pos, |pos|, idx, p)
    ensures Embeds(Compacted(ar, p, ar.mul(range, range)), RangeGraph(ar, pos, range), idx)
    ensures (set x | x in idx) == Located(pos)
  {
    forall i, j | 0 <= i < |idx| && 0 <= j < |idx| && idx[i] == idx[j]
      ensures i == j
    {
      assert !(i < j) && !(j < i);
    }
    forall x | x in idx
      ensures x in Located(pos)
    {
    }
  }

  lemma {:induction false} ManyListed(idx: seq<int>)
    requires forall j, k | 0 <= j < k < |idx| :: idx[j] < idx[k]
    ensures |set x | x in idx| == |idx|
  {
    if idx != [] {
      var n := |idx| - 1;
      ManyListed(idx[..n]);
      assert idx == idx[..n] + [idx[n]];
      assert (set x | x in idx) == (set x | x in idx[..n]) + {idx[n]};
    }
  }

  // A figure for every listed node, and nothing for a node without a position.
  method WriteBack(idx: seq<int>, figures: seq<nat>, n: nat) returns (r: seq<Option<nat>>)
    requires |figures| == |idx| && forall k | 0 <= k < |idx| :: 0 <= idx[k] < n
    requires forall j, k | 0 <= j < k < |idx| :: idx[j] < idx[k]
    ensures |r| == n
    ensures forall k | 0 <= k < |idx| :: r[idx[k]] == Some(figures[k])
    ensures forall i | 0 <= i < n && i !in idx :: r[i] == None
  {
    r := seq(n, _ => None);
    for m := 0 to |idx|
      invariant |r| == n
      invariant forall k | 0 <= k < m :: r[idx[k]] == Some(figures[k])
      invariant forall i | 0 <= i < n && i !in idx :: r[i] == None
    {
      r := r[idx[m] := Some(figures[m])];
    }
  }

  // Degrees, sizes of connected components and the numbers of components and of located nodes, all
  // in terms of the range graph of the given positions; nothing at all when no node is located.
  method Snapshot<F(!new)>(ar: Arithmetic<F>, pos: seq<Position<F>>, range: F)
    returns (degrees: seq<Option<nat>>, sizes: seq<Option<nat>>, components: Option<nat>, located: Option<nat>)
    requires SignBlind(ar)
    ensures |degrees| == |sizes| == |pos|
    ensures forall i | 0 <= i < |pos| ::
              degrees[i] == if pos[i].Some? then Some(|Neighbours(RangeGraph(ar, pos, range), i)|) else None
    ensures forall i | 0 <= i < |pos| ::
              sizes[i] == if pos[i].Some? then Some(|Component(RangeGraph(ar, pos, range), i)|) else None
    ensures components == if Located(pos) == {} then None
                          else Some(|ListedComponents(RangeGraph(ar, pos, range), Located(pos))|)
    ensures located == if Located(pos) == {} then None else Some(|Located(pos)|)
  {
    var idx, p := Locate(pos);
    ghost var g, h := RangeGraph(ar, pos, range), Compacted(ar, p, ar.mul(range, range));
    ListedEmbeds(ar, pos, range, idx, p);
    ManyListed(idx);
    if |idx| == 0 {
      degrees, sizes := seq(|pos|, _ => None), seq(|pos|, _ => None);
      components, located := None, None;
      return;
    }
    assert idx[0] in Located(pos);
    var degree, size, count := Figures(ar, p, ar.mul(range, range));
    EmbeddedComponents(h, g, idx);
    forall k | 0 <= k < |idx|
      ensures degree[k] == |Neighbours(g, idx[k])| && size[k] == |Component(g, idx[k])|
    {
      EmbeddedSizes(h, g, idx, k);
    }
    degrees := WriteBack(idx, degree, |pos|);
    sizes := WriteBack(idx, size, |pos|);
    components, located := Some(count), Some(|idx|);
  }

  // ---------------------------------------------------------------- what the range graph is

  ghost predicate BothLocated<F>(pos: seq<Position<F>>, i: int, j: int) {
    0 <= i < |pos| && 0 <= j < |pos| && i != j && pos[i].Some? && pos[j].Some?
  }

  lemma TimesRounds(round: real -> real, a: real, b: real, product: real)
    requires product == a * b
    ensures Times(round, a, b) == round(product)
  {
  }

  // With rounding, two nodes are near when the rounded sum of the rounded squares of the rounded
  // differences of their coordinates is at most the rounded square of the range.
  lemma NearWhenRounded(round: real -> real, pos: seq<Position<real>>, range: real, i: int, j: int,
                        dx: real, dy: real, dx2: real, dy2: real, r2: real)
    requires BothLocated(pos, i, j)
    requires dx == round(pos[i].value.0 - pos[j].value.0) && dy == round(pos[i].value.1 - pos[j].value.1)
    requires dx2 == dx * dx && dy2 == dy * dy && r2 == range * range
    ensures RangeGraph(Rounded(round), pos, range).near(i, j) <==> round(round(dx2) + round(dy2)) <= round(r2)
  {
    TimesRounds(round, dx, dx, dx2);
    TimesRounds(round, dy, dy, dy2);
    TimesRounds(round, range, range, r2);
    assert Square(Rounded(round), pos[i].value, pos[j].value) == round(round(dx2) + round(dy2));
  }

  // Without rounding: two nodes are near when their distance is at most the range.
  lemma NearWhenExact(pos: seq<Position<real>>, range: real, i: int, j: int)
    requires BothLocated(pos, i, j)
    ensures var dx := pos[i].value.0 - pos[j].value.0;
            var dy := pos[i].value.1 - pos[j].value.1;
            RangeGraph(Rounded(x => x), pos, range).near(i, j) <==> dx * dx + dy * dy <= range * range
  {
    var dx, dy := pos[i].value.0 - pos[j].value.0, pos[i].value.1 - pos[j].value.1;
    NearWhenRounded(x => x, pos, range, i, j, dx, dy, dx * dx, dy * dy, range * range);
  }

  lemma NearOnlyLocated<F(!new)>(ar: Arithmetic<F>, pos: seq<Position<F>>, range: F, i: int, j: int)
    requires RangeGraph(ar, pos, range).near(i, j)
    ensures BothLocated(pos, i, j)
  {
  }

  // Graphs with the same edges have the same figures.
  ghost predicate SameEdges(g: Graph, h: Graph) {
    g.n == h.n && forall i, j :: g.near(i, j) == h.near(i, j)
  }

  lemma SameEdgesSameFigures(g: Graph, h: Graph, i: int)
    requires SameEdges(g, h)
    ensures Neighbours(g, i) == Neighbours(h, i) && Component(g, i) == Component(h, i)
  {
    forall b
      ensures Connected(g, i, b) <==> Connected(h, i, b)
    {
      if Connected(g, i, b) {
        var path :| Joins(g, path, i, b);
        assert Joins(h, path, i, b);
      }
      if Connected(h, i, b) {
        var path :| Joins(h, path, i, b);
        assert Joins(g, path, i, b);
      }
    }
  }

  function Swapped<F>(pos: seq<Position<F>>): (swapped: seq<Position<F>>)
    ensures |swapped| == |pos|
  {
    seq(|pos|, i requires 0 <= i < |pos| =>
      if pos[i].Some? then Some((pos[i].value.1, pos[i].value.0)) else None)
  }

  lemma SwappedEdges(round: real -> real, pos: seq<Position<real>>, range: real)
    ensures SameEdges(RangeGraph(Rounded(round), pos, range), RangeGraph(Rounded(round), Swapped(pos), range))
  {
    var g, h := RangeGraph(Rounded(round), pos, range), RangeGraph(Rounded(round), Swapped(pos), range);
    forall i, j
      ensures g.near(i, j) == h.near(i, j)
    {
      if BothLocated(pos, i, j) {
        var dx, dy := round(pos[i].value.0 - pos[j].value.0), round(pos[i].value.1 - pos[j].value.1);
        NearWhenRounded(round, pos, range, i, j, dx, dy, dx * dx, dy * dy, range * range);
        NearWhenRounded(round, Swapped(pos), range, i, j, dy, dx, dy * dy, dx * dx, range * range);
      }
    }
  }

  // Both coordinates count alike: exchanging them for every node leaves all figures alone.
  lemma CoordinatesCountAlike(round: real -> real, pos: seq<Position<real>>, range: real, i: int)
    ensures var g, h := RangeGraph(Rounded(round), pos, range), RangeGraph(Rounded(round), Swapped(pos), range);
            && Neighbours(g, i) == Neighbours(h, i) && Component(g, i) == Component(h, i)
            && ListedComponents(g, Located(pos)) == ListedComponents(h, Located(Swapped(pos)))
  {
    var g, h := RangeGraph(Rounded(round), pos, range), RangeGraph(Rounded(round), Swapped(pos), range);
    SwappedEdges(round, pos, range);
    forall a
      ensures Neighbours(g, a) == Neighbours(h, a) && Component(g, a) == Component(h, a)
    {
      SameEdgesSameFigures(g, h, a);
    }
    assert Located(pos) == Located(Swapped(pos));
  }

  ghost predicate ApartInY(pos: seq<Position<real>>, range: real) {
    forall i, j | BothLocated(pos, i, j) ::
      (pos[i].value.1 - pos[j].value.1) * (pos[i].value.1 - pos[j].value.1) > range * range
  }

  lemma SquaresAdd(dx: real, dy2: real, r2: real)
    requires dy2 > r2
    ensures dx * dx + dy2 > r2
  {
    assert dx * dx >= 0.0;
  }

  lemma FirstEdge(g: Graph, i: int, b: int)
    requires Connected(g, i, b) && b != i
    ensures exists j :: g.near(i, j)
  {
    var path :| Joins(g, path, i, b);
    assert g.near(path[0], path[0 + 1]);
  }

  // One coordinate is enough: where any two nodes are farther than the range apart in y, every node
  // is alone, whatever their x.
  lemma ApartInYIsAlone(pos: seq<Position<real>>, range: real, i: int)
    requires ApartInY(pos, range) && 0 <= i < |pos|
    ensures var g := RangeGraph(Rounded(x => x), pos, range);
            Neighbours(g, i) == {} && Component(g, i) == {i}
  {
    var g := RangeGraph(Rounded(x => x), pos, range);
    forall j
      ensures !g.near(i, j)
    {
      if BothLocated(pos, i, j) {
        var ((x1, y1), (x2, y2)) := (pos[i].value, pos[j].value);
        NearWhenExact(pos, range, i, j);
        SquaresAdd(x1 - x2, (y1 - y2) * (y1 - y2), range * range);
      }
    }
    forall b | Connected(g, i, b)
      ensures b == i
    {
      if b != i {
        FirstEdge(g, i, b);
      }
    }
    ConnectedSelf(g, i);
  }
}

/**
 * Directed graphs over string ids, given as a map from a node to the set of
 * nodes it points at (for the schedulers: a task and the tasks it depends on).
 * Paths, cycles, and the two facts the schedulers' proofs rest on.
 */
module Digraph {

  /** The successors of `u`; a node without an entry has none. */
  function Succ(g: map<string, set<string>>, u: string): set<string> {
    if u in g then g[u] else {}
  }

  /** Every node is a successor of the one before it. */
  ghost predicate IsPath(g: map<string, set<string>>, p: seq<string>) {
    forall i :: 0 <= i < |p| - 1 ==> p[i + 1] in Succ(g, p[i])
  }

  /** A path of at least one edge that ends where it starts. */
  ghost predicate IsCycle(g: map<string, set<string>>, p: seq<string>) {
    |p| >= 2 && p[0] == p[|p| - 1] && IsPath(g, p)
  }

  ghost predicate Cyclic(g: map<string, set<string>>) {
    exists p :: IsCycle(g, p)
  }

  predicate Distinct<T(==)>(s: seq<T>) {
    forall i, j :: 0 <= i < j < |s| ==> s[i] != s[j]
  }

  /** A distinct sequence holds each value at most once. */
  lemma {:induction false} DistinctCount<T>(a: seq<T>, x: T)
    requires Distinct(a)
    ensures multiset(a)[x] <= 1
    decreases |a|
  {
    if a != [] {
      assert a == [a[0]] + a[1..];
      DistinctCount(a[1..], x);
      if x == a[0] {
        assert x !in a[1..];
      }
    }
  }

  /** A permutation of a distinct sequence is distinct. */
  lemma DistinctPermutation<T>(a: seq<T>, b: seq<T>)
    requires multiset(a) == multiset(b) && Distinct(a)
    ensures Distinct(b)
  {
    forall i, j | 0 <= i < j < |b| ensures b[i] != b[j] {
      DistinctCount(a, b[i]);
      assert b == b[..i] + [b[i]] + b[i + 1..j] + [b[j]] + b[j + 1..];
    }
  }

  function Elems<T>(s: seq<T>): set<T> {
    set x | x in s
  }

  /** Appending one element adds exactly that element to the set of elements. */
  lemma ElemsSnoc<T>(s: seq<T>, x: T)
    ensures Elems(s + [x]) == Elems(s) + {x}
  {
    assert forall y :: y in s + [x] <==> y in s || y == x;
  }

  lemma {:induction false} DistinctCard<T>(s: seq<T>)
    requires Distinct(s)
    ensures |Elems(s)| == |s|
    decreases |s|
  {
    if s != [] {
      var init, last := s[..|s| - 1], s[|s| - 1];
      DistinctCard(init);
      assert Elems(s) == Elems(init) + {last} by {
        assert s == init + [last];
      }
      assert last !in Elems(init);
    }
  }

  /** A sequence longer than the set its elements come from repeats an element. */
  lemma Pigeonhole<T>(s: seq<T>, u: set<T>)
    requires forall i :: 0 <= i < |s| ==> s[i] in u
    requires |s| > |u|
    ensures !Distinct(s)
  {
    if Distinct(s) {
      DistinctCard(s);
      SubsetCard(Elems(s), u);
    }
  }

  lemma {:induction false} SubsetCard<T>(a: set<T>, b: set<T>)
    requires a <= b
    ensures |a| <= |b|
    decreases |a|
  {
    if a != {} {
      var x :| x in a;
      SubsetCard(a - {x}, b - {x});
    }
  }

  lemma ProperSubsetCard<T>(a: set<T>, b: set<T>)
    requires a < b
    ensures |a| < |b|
  {
    assert b == a + (b - a);
    assert b - a != {};
    var x :| x in b - a;
    SubsetCard(a, b - {x});
  }

  /** A path extended by a successor of its last node is a path. */
  lemma ExtendPath(g: map<string, set<string>>, p: seq<string>, y: string)
    requires IsPath(g, p) && |p| >= 1 && y in Succ(g, p[|p| - 1])
    ensures IsPath(g, p + [y])
  {
    var q := p + [y];
    forall k | 0 <= k < |q| - 1 ensures q[k + 1] in Succ(g, q[k]) {
      if k < |p| - 1 {
        assert q[k] == p[k] && q[k + 1] == p[k + 1];
      }
    }
  }

  /** A stretch of a path is a path. */
  lemma SubPath(g: map<string, set<string>>, p: seq<string>, i: int, j: int)
    requires IsPath(g, p) && 0 <= i <= j <= |p|
    ensures IsPath(g, p[i..j])
  {
    var c := p[i..j];
    forall k | 0 <= k < |c| - 1 ensures c[k + 1] in Succ(g, c[k]) {
      assert c[k] == p[i + k] && c[k + 1] == p[i + k + 1];
    }
  }

  lemma SomeMember(s: set<string>) returns (y: string)
    requires s != {}
    ensures y in s
  {
    y :| y in s;
  }

  /** A non-empty set in which every node has a successor inside the set contains a cycle. */
  lemma CycleInClosedSet(g: map<string, set<string>>, u: set<string>)
    requires u != {}
    requires forall x :: x in u ==> Succ(g, x) * u != {}
    ensures Cyclic(g)
  {
    var x0 :| x0 in u;
    var p := [x0];
    while |p| <= |u|
      invariant |p| >= 1 && IsPath(g, p)
      invariant forall i :: 0 <= i < |p| ==> p[i] in u
      decreases |u| + 1 - |p|
    {
      var last := p[|p| - 1];
      assert last in u;
      assert Succ(g, last) * u != {};
      var y := SomeMember(Succ(g, last) * u);
      ExtendPath(g, p, y);
      p := p + [y];
    }
    Pigeonhole(p, u);
    var i, j :| 0 <= i < j < |p| && p[i] == p[j];
    SubPath(g, p, i, j + 1);
    assert IsCycle(g, p[i..j + 1]);
  }

  /** Along a path that starts at a ranked node, ranks fall by at least one per edge. */
  lemma PathRankFalls(g: map<string, set<string>>, rank: map<string, int>, p: seq<string>)
    requires forall x, y :: x in rank && y in Succ(g, x) ==> y in rank && rank[y] < rank[x]
    requires |p| >= 1 && IsPath(g, p) && p[0] in rank
    ensures p[|p| - 1] in rank && rank[p[|p| - 1]] <= rank[p[0]] - (|p| - 1)
  {
    var k := 0;
    while k < |p| - 1
      invariant 0 <= k <= |p| - 1
      invariant p[k] in rank && rank[p[k]] <= rank[p[0]] - k
    {
      assert p[k + 1] in Succ(g, p[k]);
      k := k + 1;
    }
  }

  /**
   * A ranking of the nodes in which every edge goes to a strictly smaller rank,
   * and which covers every node that has successors, rules out cycles.
   */
  lemma RankedAcyclic(g: map<string, set<string>>, rank: map<string, int>)
    requires forall x :: x in g ==> x in rank
    requires forall x, y :: x in rank && y in Succ(g, x) ==> y in rank && rank[y] < rank[x]
    ensures !Cyclic(g)
  {
    forall p | |p| >= 2 && IsPath(g, p) ensures !IsCycle(g, p) {
      assert p[1] in Succ(g, p[0]);
      PathRankFalls(g, rank, p);
    }
  }

  /** `order` with every occurrence of `x` removed. */
  function Without(order: seq<string>, x: string): (r: seq<string>)
    ensures forall y :: y in r <==> y in order && y != x
    ensures Distinct(order) ==> Distinct(r)
    ensures x !in order ==> r == order
  {
    if order == [] then []
    else
      var rest := Without(order[1..], x);
      if order[0] == x then rest
      else
        assert forall y :: y in order <==> y == order[0] || y in order[1..];
        assert Distinct(order) ==> Distinct(order[1..]) && order[0] !in order[1..];
        [order[0]] + rest
  }

  /** `reverse` holds exactly the edges of `graph`, turned around. */
  ghost predicate Mirrored(graph: map<string, set<string>>, reverse: map<string, set<string>>) {
    forall t, d :: d in Succ(graph, t) <==> t in Succ(reverse, d)
  }

  /** Taking one more member of `a` into `done` shrinks what is left of `a` by one. */
  lemma CardMinusOne(a: set<string>, b: set<string>, x: string)
    requires x in a && x !in b
    ensures |a - b| == |a - (b + {x})| + 1
  {
    assert a - b == (a - (b + {x})) + {x};
  }

  /** The map without the entry of `x`, with `x` discarded from every remaining set. */
  function Erase(m: map<string, set<string>>, x: string): (e: map<string, set<string>>)
    ensures e.Keys == m.Keys - {x}
    ensures forall t :: Succ(e, t) == if t == x then {} else Succ(m, t) - {x}
  {
    var kept := if x in m then m - {x} else m;
    map t | t in kept :: kept[t] - {x}
  }

  /** Dropping the entries of `x` and `x` from every set, on both sides, keeps the maps mirrored. */
  lemma UnlinkMirrored(graph: map<string, set<string>>, reverse: map<string, set<string>>,
                       g: map<string, set<string>>, r: map<string, set<string>>, x: string)
    requires Mirrored(graph, reverse)
    requires forall t :: Succ(g, t) == if t == x then {} else Succ(graph, t) - {x}
    requires forall d :: Succ(r, d) == if d == x then {} else Succ(reverse, d) - {x}
    ensures Mirrored(g, r)
  {
    forall t', d' ensures d' in Succ(g, t') <==> t' in Succ(r, d') {
      assert Succ(g, t') == if t' == x then {} else Succ(graph, t') - {x};
      assert Succ(r, d') == if d' == x then {} else Succ(reverse, d') - {x};
    }
  }
}

/**
 * The task dependency graph of the research-agent dispatcher
 * (chapter-04/dispatcher.py): a map from each task id to the set of ids it
 * depends on, the reverse map from an id to its dependents, the ready set for
 * a set of completed tasks, and Kahn's breadth-first execution order.
 *
 * The source never checks that the two maps agree: re-adding a task with a
 * smaller dependency set leaves stale reverse links behind. The model keeps
 * that behaviour and states the guarantees under `Consistent()`, the
 * condition that the reverse map mirrors the forward one.
 */
module Dispatch {
  import opened Wrappers
  import opened Digraph

  /** The two ways `get_execution_order` can fail. */
  datatype OrderError =
    | CircularDependency      // the ValueError raised when some node is never emitted
    | MissingKey(id: string)  // the KeyError of counting down a dependent that is not a node

  /** Every dependency of a node is itself a node. */
  ghost predicate DepsKnown(g: map<string, set<string>>) {
    forall t :: t in g ==> g[t] <= g.Keys
  }

  /** Every entry of `s` comes after all of its dependencies. */
  ghost predicate DepsFirst(g: map<string, set<string>>, s: seq<string>) {
    forall j :: 0 <= j < |s| ==> Succ(g, s[j]) <= Elems(s[..j])
  }

  /** The position of `x` in `s` (the first one). */
  function IndexOf(s: seq<string>, x: string): (i: nat)
    requires x in s
    ensures i < |s| && s[i] == x
    ensures forall j :: 0 <= j < i ==> s[j] != x
  {
    if s[0] == x then 0 else 1 + IndexOf(s[1..], x)
  }

  /**
   * A list of all the nodes, each after its dependencies, exists only when
   * every dependency is a node and the graph has no cycle.
   */
  lemma OrderedSound(g: map<string, set<string>>, s: seq<string>)
    requires Distinct(s) && DepsFirst(g, s) && Elems(s) == g.Keys
    ensures DepsKnown(g) && !Cyclic(g)
  {
    forall t | t in g ensures g[t] <= g.Keys {
      var j := IndexOf(s, t);
      assert Succ(g, s[j]) <= Elems(s[..j]);
    }
    var rank := map x | x in Elems(s) :: IndexOf(s, x);
    forall x, y | x in rank && y in Succ(g, x) ensures y in rank && rank[y] < rank[x] {
      var j := IndexOf(s, x);
      assert Succ(g, s[j]) <= Elems(s[..j]);
      assert y in s[..j];
      var i :| 0 <= i < j && s[..j][i] == y;
      assert s[i] == y;
    }
    RankedAcyclic(g, rank);
  }

  /** `[t for t in ids if t not in completed and deps(t) <= completed]`, in the order of `ids`. */
  function ReadyIn(g: map<string, set<string>>, ids: seq<string>, completed: set<string>): seq<string> {
    if ids == [] then []
    else (if ids[0] !in completed && Succ(g, ids[0]) <= completed then [ids[0]] else []) + ReadyIn(g, ids[1..], completed)
  }

  /** The ready list holds exactly the ready ids, each once when `ids` has no repeats. */
  lemma {:induction false} ReadyInMembers(g: map<string, set<string>>, ids: seq<string>, completed: set<string>)
    ensures forall x :: x in ReadyIn(g, ids, completed) <==> x in ids && x !in completed && Succ(g, x) <= completed
    ensures Distinct(ids) ==> Distinct(ReadyIn(g, ids, completed))
    decreases |ids|
  {
    if ids != [] {
      ReadyInMembers(g, ids[1..], completed);
      assert forall x :: x in ids <==> x == ids[0] || x in ids[1..];
      assert Distinct(ids) ==> Distinct(ids[1..]) && ids[0] !in ids[1..];
    }
  }

  /** `[t for t in ids if indeg[t] == 0]`, in the order of `ids`. */
  function ZeroIn(ids: seq<string>, indeg: map<string, int>): (r: seq<string>)
    requires forall i :: 0 <= i < |ids| ==> ids[i] in indeg
    ensures forall x :: x in r <==> x in ids && indeg[x] == 0
    ensures Distinct(ids) ==> Distinct(r)
  {
    if ids == [] then []
    else
      var rest := ZeroIn(ids[1..], indeg);
      assert forall x :: x in ids <==> x == ids[0] || x in ids[1..];
      assert Distinct(ids) ==> Distinct(ids[1..]) && ids[0] !in ids[1..];
      if indeg[ids[0]] == 0 then [ids[0]] + rest else rest
  }

  // ---------------------------------------------------------------------------
  // The state of Kahn's algorithm in `get_execution_order`
  // ---------------------------------------------------------------------------

  /**
   * What holds whatever the maps contain: the emitted list and the queue are
   * disjoint lists of distinct nodes, and their counts have reached zero or
   * below (a count only ever goes down, so nothing is queued twice).
   */
  ghost predicate Tracked(g: map<string, set<string>>, indeg: map<string, int>, result: seq<string>, queue: seq<string>) {
    && indeg.Keys == g.Keys
    && Distinct(result) && Distinct(queue)
    && (forall x :: x in result ==> x !in queue)
    && (forall x :: x in result ==> x in g && indeg[x] <= 0)
    && (forall x :: x in queue ==> x in g && indeg[x] <= 0)
  }

  /**
   * Each count is the number of dependencies not yet emitted, plus one for the
   * dependents of the current node that the inner loop has still to visit.
   */
  ghost predicate Counted(g: map<string, set<string>>, indeg: map<string, int>, done: set<string>, todo: set<string>) {
    forall t :: t in g ==> t in indeg && indeg[t] == |g[t] - done| + (if t in todo then 1 else 0)
  }

  /** Every node not yet emitted whose count is zero is in the queue. */
  ghost predicate Enqueued(g: map<string, set<string>>, indeg: map<string, int>, done: set<string>, queue: seq<string>) {
    forall t :: t in g && t in indeg && t !in done && indeg[t] == 0 ==> t in queue
  }

  /** A list of distinct nodes is no longer than the graph. */
  lemma LengthBound(g: map<string, set<string>>, s: seq<string>)
    requires Distinct(s) && forall x :: x in s ==> x in g
    ensures |s| <= |g.Keys|
    ensures |s| == |g.Keys| ==> Elems(s) == g.Keys
  {
    DistinctCard(s);
    SubsetCard(Elems(s), g.Keys);
    if |s| == |g.Keys| && Elems(s) != g.Keys {
      ProperSubsetCard(Elems(s), g.Keys);
    }
  }

  /** The node at the head of the queue has all of its dependencies emitted. */
  lemma HeadReady(g: map<string, set<string>>, indeg: map<string, int>, result: seq<string>, queue: seq<string>,
                  done: set<string>)
    requires queue != [] && Tracked(g, indeg, result, queue) && Counted(g, indeg, done, {})
    ensures queue[0] in g && g[queue[0]] <= done
  {
    var x := queue[0];
    assert x in queue;
    assert x !in {};
    assert indeg[x] == |g[x] - done| <= 0;
    assert g[x] - done == {};
    forall y | y in g[x] ensures y in done {
      assert y !in g[x] - done;
    }
  }

  /** Emitting a node whose dependencies come earlier keeps every node after its dependencies. */
  lemma EmitDepsFirst(g: map<string, set<string>>, result: seq<string>, x: string)
    requires DepsFirst(g, result) && Succ(g, x) <= Elems(result)
    ensures DepsFirst(g, result + [x])
  {
    var r := result + [x];
    forall j | 0 <= j < |r| ensures Succ(g, r[j]) <= Elems(r[..j]) {
      if j < |result| {
        assert r[j] == result[j] && r[..j] == result[..j];
      } else {
        assert r[..j] == result;
      }
    }
  }

  /** Once `x` is emitted, its dependents (and only they) have one count too many. */
  lemma EmitCounted(g: map<string, set<string>>, rev: map<string, set<string>>, indeg: map<string, int>,
                    done: set<string>, x: string)
    requires Mirrored(g, rev) && x !in done
    requires Counted(g, indeg, done, {})
    ensures Succ(rev, x) <= g.Keys
    ensures Counted(g, indeg, done + {x}, Succ(rev, x))
  {
    forall t | t in Succ(rev, x) ensures t in g {
      assert x in Succ(g, t);
    }
    forall t | t in g
      ensures indeg[t] == |g[t] - (done + {x})| + (if t in Succ(rev, x) then 1 else 0)
    {
      if t in Succ(rev, x) {
        assert x in Succ(g, t);
        CardMinusOne(g[t], done, x);
      } else {
        assert x !in Succ(g, t);
        assert g[t] - done == g[t] - (done + {x});
      }
    }
  }

  /** Removing the head from the queue keeps every other waiting node in it. */
  lemma EmitEnqueued(g: map<string, set<string>>, indeg: map<string, int>, done: set<string>, queue: seq<string>)
    requires queue != [] && Enqueued(g, indeg, done, queue)
    ensures Enqueued(g, indeg, done + {queue[0]}, queue[1..])
  {
    forall t | t in g && t in indeg && t !in done + {queue[0]} && indeg[t] == 0 ensures t in queue[1..] {
      assert t in queue;
    }
  }

  /** Moving the head of the queue to the end of the emitted list keeps both lists tracked. */
  lemma EmitTracked(g: map<string, set<string>>, indeg: map<string, int>, result: seq<string>, queue: seq<string>)
    requires queue != [] && Tracked(g, indeg, result, queue)
    ensures Tracked(g, indeg, result + [queue[0]], queue[1..])
  {
    var x, r, q := queue[0], result + [queue[0]], queue[1..];
    assert x in queue && x !in result;
    assert x !in q;
    assert forall y :: y in r <==> y in result || y == x;
    assert forall y :: y in q ==> y in queue;
    forall i, j | 0 <= i < j < |r| ensures r[i] != r[j] {
      if j == |r| - 1 {
        assert r[i] in result;
      }
    }
  }

  /** Popping the head of the queue: it is emitted, and its dependents become the ones to visit. */
  lemma PopStep(g: map<string, set<string>>, rev: map<string, set<string>>, indeg: map<string, int>,
                result: seq<string>, queue: seq<string>, done: set<string>)
    requires queue != [] && done == Elems(result)
    requires Tracked(g, indeg, result, queue)
    requires Mirrored(g, rev)
    requires Counted(g, indeg, done, {}) && Enqueued(g, indeg, done, queue) && DepsFirst(g, result)
    ensures Succ(rev, queue[0]) <= g.Keys
    ensures Counted(g, indeg, done + {queue[0]}, Succ(rev, queue[0]))
    ensures Enqueued(g, indeg, done + {queue[0]}, queue[1..])
    ensures DepsFirst(g, result + [queue[0]])
  {
    var x := queue[0];
    assert x in queue;
    assert x !in done;
    HeadReady(g, indeg, result, queue, done);
    EmitDepsFirst(g, result, x);
    EmitCounted(g, rev, indeg, done, x);
    EmitEnqueued(g, indeg, done, queue);
  }

  /** One dependent counted down, and queued when its count reaches zero. */
  lemma DecrementStep(g: map<string, set<string>>, indeg: map<string, int>, result: seq<string>, queue: seq<string>,
                      done: set<string>, todo: set<string>, t: string)
    requires Tracked(g, indeg, result, queue) && t in indeg
    ensures var indeg' := indeg[t := indeg[t] - 1];
            Tracked(g, indeg', result, if indeg'[t] == 0 then queue + [t] else queue)
    ensures var indeg' := indeg[t := indeg[t] - 1];
            t in todo && Counted(g, indeg, done, todo) && Enqueued(g, indeg, done, queue) ==>
              Counted(g, indeg', done, todo - {t})
              && Enqueued(g, indeg', done, if indeg'[t] == 0 then queue + [t] else queue)
  {
    var indeg' := indeg[t := indeg[t] - 1];
    if indeg'[t] == 0 {
      assert t !in result && t !in queue;
      var q := queue + [t];
      assert forall x :: x in q <==> x in queue || x == t;
    }
  }

  /** The inner loop of `get_execution_order`: count down every dependent of the node just emitted. */
  method Release(ghost c: bool, ghost g: map<string, set<string>>, dependents: set<string>,
                 indeg0: map<string, int>, queue0: seq<string>, ghost result: seq<string>, ghost done: set<string>)
    returns (indeg: map<string, int>, queue: seq<string>, missing: Option<string>)
    requires Tracked(g, indeg0, result, queue0)
    requires c ==> dependents <= g.Keys && Counted(g, indeg0, done, dependents) && Enqueued(g, indeg0, done, queue0)
    ensures missing.Some? ==> missing.value in dependents && missing.value !in g
    ensures missing.None? ==> Tracked(g, indeg, result, queue)
    ensures c ==> missing.None? && Counted(g, indeg, done, {}) && Enqueued(g, indeg, done, queue)
  {
    indeg, queue := indeg0, queue0;
    var rest := dependents;
    while rest != {}
      invariant rest <= dependents
      invariant Tracked(g, indeg, result, queue)
      invariant c ==> Counted(g, indeg, done, rest) && Enqueued(g, indeg, done, queue)
      decreases |rest|
    {
      var t :| t in rest;
      if t !in indeg {
        return indeg, queue, Some(t);
      }
      DecrementStep(g, indeg, result, queue, done, rest, t);
      indeg := indeg[t := indeg[t] - 1];
      if indeg[t] == 0 {
        queue := queue + [t];
      }
      rest := rest - {t};
    }
    missing := None;
  }

  /** With the queue empty, every node not emitted still waits for a dependency that is not emitted. */
  lemma Blocked(g: map<string, set<string>>, indeg: map<string, int>, done: set<string>, t: string)
    requires Counted(g, indeg, done, {}) && Enqueued(g, indeg, done, [])
    requires t in g && t !in done
    ensures g[t] - done != {}
  {
    assert t !in {};
    assert indeg[t] == |g[t] - done|;
  }

  /** Fewer distinct nodes listed than there are nodes: some node is not listed. */
  lemma Leftover(g: map<string, set<string>>, s: seq<string>)
    requires Distinct(s) && (forall x :: x in s ==> x in g) && |s| != |g.Keys|
    ensures g.Keys - Elems(s) != {}
  {
    LengthBound(g, s);
    DistinctCard(s);
    var u := g.Keys - Elems(s);
    assert g.Keys == Elems(s) + u && Elems(s) * u == {};
    assert |g.Keys| == |Elems(s)| + |u|;
  }

  /** Queue empty but nodes left: when every dependency is a node, the ones left hold a cycle. */
  lemma StuckCyclic(g: map<string, set<string>>, indeg: map<string, int>, result: seq<string>, done: set<string>)
    requires done == Elems(result) && Tracked(g, indeg, result, [])
    requires Counted(g, indeg, done, {}) && Enqueued(g, indeg, done, [])
    requires |result| != |g.Keys|
    ensures Cyclic(g) || !DepsKnown(g)
  {
    var u := g.Keys - done;
    Leftover(g, result);
    if DepsKnown(g) {
      forall t | t in u ensures Succ(g, t) * u != {} {
        Blocked(g, indeg, done, t);
        var y :| y in g[t] - done;
        assert y in u;
      }
      CycleInClosedSet(g, u);
    }
  }

  /** The invariant of the outer loop of `get_execution_order`. */
  ghost predicate KahnInv(c: bool, g: map<string, set<string>>, indeg: map<string, int>,
                          result: seq<string>, queue: seq<string>, done: set<string>) {
    && done == Elems(result)
    && Tracked(g, indeg, result, queue)
    && (c ==> Counted(g, indeg, done, {}) && Enqueued(g, indeg, done, queue) && DepsFirst(g, result))
  }

  /** One round of the outer loop: pop the head of the queue, emit it, count down its dependents. */
  method Step(ghost c: bool, ghost g: map<string, set<string>>, rev: map<string, set<string>>, indeg0: map<string, int>,
              result0: seq<string>, queue0: seq<string>, ghost done0: set<string>)
    returns (indeg: map<string, int>, result: seq<string>, queue: seq<string>, ghost done: set<string>,
             missing: Option<string>)
    requires c ==> Mirrored(g, rev)
    requires queue0 != [] && KahnInv(c, g, indeg0, result0, queue0, done0)
    ensures |result| == |result0| + 1
    ensures missing.None? ==> KahnInv(c, g, indeg, result, queue, done) && |result| <= |g.Keys|
    ensures missing.Some? ==> missing.value !in g
    ensures c ==> missing.None?
  {
    var current := queue0[0];
    if c {
      PopStep(g, rev, indeg0, result0, queue0, done0);
    }
    EmitTracked(g, indeg0, result0, queue0);
    ElemsSnoc(result0, current);
    result := result0 + [current];
    done := done0 + {current};
    LengthBound(g, result);
    indeg, queue, missing := Release(c, g, Succ(rev, current), indeg0, queue0[1..], result, done);
  }

  /**
   * The outer loop of `get_execution_order`. When `c` holds (the reverse map
   * mirrors `g`) the result lists every node after its dependencies, and it is
   * an error exactly when no such list exists.
   */
  method Kahn(ghost c: bool, g: map<string, set<string>>, rev: map<string, set<string>>, order: seq<string>)
    returns (r: Result<seq<string>, OrderError>)
    requires Distinct(order) && forall k :: k in g <==> k in order
    requires c == Mirrored(g, rev)
    ensures r.Ok? ==> Distinct(r.value) && Elems(r.value) == g.Keys
    ensures c ==> r.Ok? || r.error == CircularDependency
    ensures c && r.Ok? ==> DepsFirst(g, r.value)
    ensures c && r.Err? ==> Cyclic(g) || !DepsKnown(g)
  {
    var indeg, queue := Seed(c, g, order);
    var result := [];
    ghost var done: set<string> := {};
    while queue != []
      invariant KahnInv(c, g, indeg, result, queue, done) && |result| <= |g.Keys|
      decreases |g.Keys| - |result|
    {
      var missing;
      indeg, result, queue, done, missing := Step(c, g, rev, indeg, result, queue, done);
      if missing.Some? {
        return Err(MissingKey(missing.value));
      }
    }
    Drained(c, g, indeg, result, done);
    if |result| != |g.Keys| {
      return Err(CircularDependency);
    }
    r := Ok(result);
  }

  /** The counts and the queue `get_execution_order` starts from. */
  method Seed(ghost c: bool, g: map<string, set<string>>, order: seq<string>)
    returns (indeg: map<string, int>, queue: seq<string>)
    requires Distinct(order) && forall k :: k in g <==> k in order
    ensures KahnInv(c, g, indeg, [], queue, {})
  {
    indeg := map t | t in g :: |g[t]|;
    queue := ZeroIn(order, indeg);
    assert indeg.Keys == g.Keys;
    forall t | t in g ensures indeg[t] == |g[t] - {}| + (if t in {} then 1 else 0) {
      assert g[t] - {} == g[t];
    }
    forall t | t in g && t in indeg && t !in {} && indeg[t] == 0 ensures t in queue {
      assert t in order;
    }
    assert Tracked(g, indeg, [], queue);
  }

  /** What the state says once the queue has run dry. */
  lemma Drained(c: bool, g: map<string, set<string>>, indeg: map<string, int>, result: seq<string>, done: set<string>)
    requires KahnInv(c, g, indeg, result, [], done)
    ensures |result| == |g.Keys| ==> Distinct(result) && Elems(result) == g.Keys && (c ==> DepsFirst(g, result))
    ensures c && |result| != |g.Keys| ==> Cyclic(g) || !DepsKnown(g)
  {
    LengthBound(g, result);
    if c && |result| != |g.Keys| {
      StuckCyclic(g, indeg, result, done);
    }
  }

  // ---------------------------------------------------------------------------
  // The loops of `add_task` and `remove_task` over a set of ids
  // ---------------------------------------------------------------------------

  /** `r` is `reverse` with `x` added to the set of each id in `ds`. */
  ghost predicate AddedTo(r: map<string, set<string>>, reverse: map<string, set<string>>, x: string, ds: set<string>) {
    forall d :: Succ(r, d) == Succ(reverse, d) + (if d in ds then {x} else {})
  }

  /** `r` is `reverse` with `x` taken out of the set of each id in `ds`. */
  ghost predicate RemovedFrom(r: map<string, set<string>>, reverse: map<string, set<string>>, x: string, ds: set<string>) {
    forall d :: Succ(r, d) == if d in ds then Succ(reverse, d) - {x} else Succ(reverse, d)
  }

  /** `n` is `nodes` with `x` taken out of the dependency set of each node in `ts`. */
  ghost predicate DetachedFrom(n: map<string, set<string>>, nodes: map<string, set<string>>, x: string, ts: set<string>) {
    && n.Keys == nodes.Keys
    && forall t :: t in n ==> n[t] == if t in ts then nodes[t] - {x} else nodes[t]
  }

  lemma AddedStep(r: map<string, set<string>>, reverse: map<string, set<string>>, x: string,
                  deps: set<string>, rest: set<string>, d: string)
    requires AddedTo(r, reverse, x, deps - rest) && d in rest && rest <= deps
    ensures AddedTo(r[d := Succ(r, d) + {x}], reverse, x, deps - (rest - {d}))
  {
    var ds := deps - rest;
    assert ds + {d} == deps - (rest - {d});
    var r' := r[d := Succ(r, d) + {x}];
    forall e ensures Succ(r', e) == Succ(reverse, e) + (if e in ds + {d} then {x} else {}) {
      assert Succ(r, e) == Succ(reverse, e) + (if e in ds then {x} else {});
    }
  }

  lemma RemovedStep(r: map<string, set<string>>, reverse: map<string, set<string>>, x: string,
                    deps: set<string>, rest: set<string>, d: string)
    requires RemovedFrom(r, reverse, x, deps - rest) && d in rest && rest <= deps
    ensures RemovedFrom(r[d := Succ(r, d) - {x}], reverse, x, deps - (rest - {d}))
  {
    var ds := deps - rest;
    assert ds + {d} == deps - (rest - {d});
    var r' := r[d := Succ(r, d) - {x}];
    forall e ensures Succ(r', e) == if e in ds + {d} then Succ(reverse, e) - {x} else Succ(reverse, e) {
      assert Succ(r, e) == if e in ds then Succ(reverse, e) - {x} else Succ(reverse, e);
    }
  }

  /** `for d in deps: reverse[d].add(x)`. */
  method Link(reverse: map<string, set<string>>, x: string, deps: set<string>) returns (r: map<string, set<string>>)
    ensures AddedTo(r, reverse, x, deps)
  {
    r := reverse;
    var rest := deps;
    assert AddedTo(r, reverse, x, deps - rest) by {
      assert deps - rest == {};
      forall d ensures Succ(r, d) == Succ(reverse, d) + {} {
        assert Succ(reverse, d) + {} == Succ(reverse, d);
      }
    }
    while rest != {}
      invariant rest <= deps
      invariant AddedTo(r, reverse, x, deps - rest)
      decreases |rest|
    {
      var d :| d in rest;
      AddedStep(r, reverse, x, deps, rest, d);
      r := r[d := Succ(r, d) + {x}];
      rest := rest - {d};
    }
    assert deps - rest == deps;
  }

  /** `for d in deps: reverse[d].discard(x)`. */
  method Unlink(reverse: map<string, set<string>>, x: string, deps: set<string>) returns (r: map<string, set<string>>)
    ensures RemovedFrom(r, reverse, x, deps)
  {
    r := reverse;
    var rest := deps;
    while rest != {}
      invariant rest <= deps
      invariant RemovedFrom(r, reverse, x, deps - rest)
      decreases |rest|
    {
      var d :| d in rest;
      RemovedStep(r, reverse, x, deps, rest, d);
      r := r[d := Succ(r, d) - {x}];
      rest := rest - {d};
    }
    assert deps - rest == deps;
  }

  /** `for t in dependents: if t in nodes: nodes[t].discard(x)`. */
  method Detach(nodes: map<string, set<string>>, x: string, dependents: set<string>) returns (n: map<string, set<string>>)
    ensures DetachedFrom(n, nodes, x, dependents)
  {
    n := nodes;
    var rest := dependents;
    while rest != {}
      invariant rest <= dependents
      invariant DetachedFrom(n, nodes, x, dependents - rest)
      decreases |rest|
    {
      var t :| t in rest;
      assert dependents - rest + {t} == dependents - (rest - {t});
      if t in n {
        n := n[t := n[t] - {x}];
      }
      rest := rest - {t};
    }
    assert dependents - rest == dependents;
  }

  class DependencyGraph {
    /** A task id and the set of ids it depends on. */
    var nodes: map<string, set<string>>
    /** An id and the set of tasks that depend on it; an id without an entry has none. */
    var reverse: map<string, set<string>>
    /** The keys of `nodes` in insertion order, the order the dictionary iterates in. */
    var order: seq<string>

    ghost predicate Valid()
      reads this
    {
      Distinct(order) && forall k :: k in nodes <==> k in order
    }

    /** The reverse map lists exactly the dependents the forward map records. */
    ghost predicate Consistent()
      reads this
    {
      Mirrored(nodes, reverse)
    }

    constructor ()
      ensures Valid() && Consistent()
      ensures nodes == map[] && reverse == map[] && order == []
    {
      nodes, reverse, order := map[], map[], [];
    }

    /**
     * `add_task`: stores the dependency set under the id (a new id goes last
     * in the iteration order) and adds the id to the dependents of each
     * dependency. Reverse links of an earlier dependency set are kept, so the
     * maps stay consistent exactly when no dependency is dropped.
     */
    method AddTask(taskId: string, dependencies: seq<string>)
      requires Valid()
      modifies this
      ensures Valid()
      ensures nodes == old(nodes)[taskId := Elems(dependencies)]
      ensures order == if taskId in old(nodes) then old(order) else old(order) + [taskId]
      ensures forall d :: Succ(reverse, d) == Succ(old(reverse), d) + (if d in dependencies then {taskId} else {})
      ensures old(Consistent()) ==>
                (Consistent() <==> (taskId in old(nodes) ==> old(nodes)[taskId] <= Elems(dependencies)))
    {
      var deps := Elems(dependencies);
      var r := Link(reverse, taskId, deps);
      RelinkConsistent(nodes, reverse, r, taskId, deps);
      if taskId !in nodes {
        order := order + [taskId];
      }
      nodes := nodes[taskId := deps];
      reverse := r;
    }

    /**
     * `remove_task`: drops the id's own entry and its reverse entry, takes the
     * id out of the dependents of each of its dependencies, and out of the
     * dependency set of each task its reverse entry lists. On consistent maps
     * that erases the id from every set.
     */
    method RemoveTask(taskId: string)
      requires Valid()
      modifies this
      ensures Valid()
      ensures nodes.Keys == old(nodes).Keys - {taskId}
      ensures order == Without(old(order), taskId)
      ensures forall t :: t in nodes ==>
                nodes[t] == if t in Succ(old(reverse), taskId) then old(nodes)[t] - {taskId} else old(nodes)[t]
      ensures forall d :: Succ(reverse, d) ==
                if d == taskId then {}
                else if d in Succ(old(nodes), taskId) then Succ(old(reverse), d) - {taskId}
                else Succ(old(reverse), d)
      ensures old(Consistent()) ==> Consistent()
      ensures old(Consistent()) ==> forall t :: taskId !in Succ(nodes, t) && taskId !in Succ(reverse, t)
    {
      var n, r := nodes, reverse;
      if taskId in n {
        r := Unlink(r, taskId, n[taskId]);
        n := n - {taskId};
        order := Without(order, taskId);
      }
      assert forall t :: t != taskId ==> (t in Succ(r, taskId) <==> t in Succ(reverse, taskId));
      if taskId in r {
        n := Detach(n, taskId, r[taskId]);
        r := r - {taskId};
      }
      UnlinkConsistent(nodes, reverse, n, r, taskId);
      nodes, reverse := n, r;
    }

    /** `get_ready_tasks(completed)`: the uncompleted tasks whose dependencies are all completed, in insertion order. */
    method GetReadyTasks(completed: set<string>) returns (ready: seq<string>)
      requires Valid()
      ensures ready == ReadyIn(nodes, order, completed)
      ensures forall t :: t in ready <==> t in nodes && t !in completed && nodes[t] <= completed
      ensures Distinct(ready)
    {
      ready := [];
      var i := 0;
      while i < |order|
        invariant 0 <= i <= |order|
        invariant ready == ReadyIn(nodes, order[..i], completed)
      {
        var taskId := order[i];
        ReadyAppend(nodes, order[..i], taskId, completed);
        assert order[..i + 1] == order[..i] + [taskId];
        if taskId !in completed && nodes[taskId] <= completed {
          ready := ready + [taskId];
        }
        i := i + 1;
      }
      assert order[..i] == order;
      ReadyInMembers(nodes, order, completed);
    }

    /**
     * `get_execution_order`: Kahn's algorithm with a first-in first-out queue
     * seeded in insertion order; the dependents of a node are visited in an
     * unspecified order. Every node is listed once; on consistent maps each
     * comes after its dependencies, and the order fails exactly when the
     * graph has a cycle or a dependency that is not a node.
     */
    method GetExecutionOrder() returns (r: Result<seq<string>, OrderError>)
      requires Valid()
      ensures r.Ok? ==> Distinct(r.value) && Elems(r.value) == nodes.Keys
      ensures Consistent() ==> r.Ok? || r.error == CircularDependency
      ensures Consistent() && r.Ok? ==> DepsFirst(nodes, r.value)
      ensures Consistent() ==> (r.Err? <==> Cyclic(nodes) || !DepsKnown(nodes))
    {
      r := Kahn(Consistent(), nodes, reverse, order);
      if r.Ok? && Consistent() {
        OrderedSound(nodes, r.value);
      }
    }
  }

  /** Filtering one more id appends it exactly when it is ready. */
  lemma {:induction false} ReadyAppend(g: map<string, set<string>>, ids: seq<string>, x: string, completed: set<string>)
    ensures ReadyIn(g, ids + [x], completed)
         == ReadyIn(g, ids, completed) + (if x !in completed && Succ(g, x) <= completed then [x] else [])
    decreases |ids|
  {
    if ids != [] {
      assert (ids + [x])[1..] == ids[1..] + [x];
      ReadyAppend(g, ids[1..], x, completed);
    }
  }

  /** The maps after `add_task` are consistent exactly when the old dependency set is kept. */
  lemma RelinkConsistent(nodes: map<string, set<string>>, reverse: map<string, set<string>>,
                         r: map<string, set<string>>, x: string, deps: set<string>)
    requires forall d :: Succ(r, d) == Succ(reverse, d) + (if d in deps then {x} else {})
    ensures Mirrored(nodes, reverse) ==>
              (Mirrored(nodes[x := deps], r) <==> (x in nodes ==> nodes[x] <= deps))
  {
    var g := nodes[x := deps];
    if Mirrored(nodes, reverse) {
      if Mirrored(g, r) && x in nodes {
        forall d | d in nodes[x] ensures d in deps {
          assert d in Succ(nodes, x);
          assert x in Succ(reverse, d);
          assert x in Succ(r, d);
          assert d in Succ(g, x);
        }
      }
      if x in nodes ==> nodes[x] <= deps {
        forall t, d ensures d in Succ(g, t) <==> t in Succ(r, d) {
          assert d in Succ(nodes, t) <==> t in Succ(reverse, d);
          if t == x {
            assert Succ(g, t) == deps;
            assert d in Succ(nodes, x) ==> d in deps;
          } else {
            assert Succ(g, t) == Succ(nodes, t);
          }
        }
      }
    }
  }

  /** On consistent maps, `remove_task` amounts to erasing the id everywhere, which keeps them consistent. */
  lemma UnlinkConsistent(nodes: map<string, set<string>>, reverse: map<string, set<string>>,
                         n: map<string, set<string>>, r: map<string, set<string>>, x: string)
    requires n.Keys == nodes.Keys - {x}
    requires forall t :: t in n ==> n[t] == if t in Succ(reverse, x) then nodes[t] - {x} else nodes[t]
    requires forall d :: Succ(r, d) == if d == x then {} else if d in Succ(nodes, x) then Succ(reverse, d) - {x} else Succ(reverse, d)
    ensures Mirrored(nodes, reverse) ==> Mirrored(n, r)
    ensures Mirrored(nodes, reverse) ==> forall t :: x !in Succ(n, t) && x !in Succ(r, t)
  {
    if Mirrored(nodes, reverse) {
      forall t ensures Succ(n, t) == if t == x then {} else Succ(nodes, t) - {x} {
        if t in n && t !in Succ(reverse, x) {
          assert x !in Succ(nodes, t);
        }
      }
      forall d ensures Succ(r, d) == if d == x then {} else Succ(reverse, d) - {x} {
        if d != x && d !in Succ(nodes, x) {
          assert x !in Succ(reverse, d);
        }
      }
      UnlinkMirrored(nodes, reverse, n, r, x);
    }
  }
}

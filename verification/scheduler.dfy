/**
 * The chapter-10 task scheduler: a dependency graph over schedulable tasks
 * (cycle detection, priority-aware topological order, ready set) and the
 * scheduler that hands out ready tasks within a concurrency limit and moves
 * tasks through pending, running, completed and failed with retries.
 *
 * Tasks are values identified by their id; the scheduler's `mark_*`
 * operations take the id of a task and update the task stored in the graph.
 */
module Scheduling {
  import opened Wrappers
  import opened Text
  import opened Digraph
  import Ranking

  /** The error `topological_sort` raises. */
  datatype SortError = CyclicDependency

  datatype TaskStatus = Pending | Ready | Running | Completed | Failed | Blocked

  datatype SchedulableTask = SchedulableTask(
    taskId: string,
    description: string,
    dependencies: seq<string>,
    priority: int,
    status: TaskStatus,
    error: Option<string>,
    retries: int,
    maxRetries: int)

  /** A task as created with the default priority, status and retry limit. */
  function NewTask(taskId: string, description: string, dependencies: seq<string>): (t: SchedulableTask)
    ensures t.taskId == taskId && t.dependencies == dependencies
    ensures t.priority == 1 && t.status == Pending && t.retries == 0 && t.maxRetries == 3 && t.error == None
  {
    SchedulableTask(taskId, description, dependencies, 1, Pending, None, 0, 3)
  }

  /** `order` lists the keys of `tasks` once each, and every task is stored under its own id. */
  ghost predicate OrderedKeys(order: seq<string>, tasks: map<string, SchedulableTask>) {
    && Distinct(order)
    && (forall k :: k in tasks <==> k in order)
    && (forall k :: k in tasks ==> tasks[k].taskId == k)
  }

  /** Storing a task keeps the order and the keys in step; a new id goes last. */
  lemma AddOrdered(order: seq<string>, tasks: map<string, SchedulableTask>, task: SchedulableTask)
    requires OrderedKeys(order, tasks)
    ensures OrderedKeys(if task.taskId in tasks then order else order + [task.taskId], tasks[task.taskId := task])
  {
  }

  /** The dependency map after adding each of `deps` to the set of `t`, one by one. */
  function LinkForward(graph: map<string, set<string>>, t: string, deps: seq<string>): map<string, set<string>> {
    if deps == [] then graph
    else
      var g := LinkForward(graph, t, deps[..|deps| - 1]);
      g[t := Succ(g, t) + {deps[|deps| - 1]}]
  }

  /** The dependents map after adding `t` to the set of each of `deps`, one by one. */
  function LinkBackward(reverse: map<string, set<string>>, t: string, deps: seq<string>): map<string, set<string>> {
    if deps == [] then reverse
    else
      var r := LinkBackward(reverse, t, deps[..|deps| - 1]);
      r[deps[|deps| - 1] := Succ(r, deps[|deps| - 1]) + {t}]
  }

  /** What the dependency map holds after linking `t` to `deps`. */
  lemma {:induction false} LinkForwardSucc(graph: map<string, set<string>>, t: string, deps: seq<string>)
    ensures forall x :: Succ(LinkForward(graph, t, deps), x) == Succ(graph, x) + (if x == t then Elems(deps) else {})
    ensures LinkForward(graph, t, deps).Keys <= graph.Keys + {t}
    decreases |deps|
  {
    if deps != [] {
      var init, last := deps[..|deps| - 1], deps[|deps| - 1];
      LinkForwardSucc(graph, t, init);
      assert Elems(deps) == Elems(init) + {last} by {
        assert deps == init + [last];
      }
      var g := LinkForward(graph, t, init);
      assert LinkForward(graph, t, deps) == g[t := Succ(g, t) + {last}];
    }
  }

  /** What the dependents map holds after linking `t` to `deps`. */
  lemma {:induction false} LinkBackwardSucc(reverse: map<string, set<string>>, t: string, deps: seq<string>)
    ensures forall d :: Succ(LinkBackward(reverse, t, deps), d) == Succ(reverse, d) + (if d in deps then {t} else {})
    decreases |deps|
  {
    if deps != [] {
      var init, last := deps[..|deps| - 1], deps[|deps| - 1];
      LinkBackwardSucc(reverse, t, init);
      assert forall d :: d in deps <==> d in init || d == last by {
        assert deps == init + [last];
      }
      var r := LinkBackward(reverse, t, init);
      assert LinkBackward(reverse, t, deps) == r[last := Succ(r, last) + {t}];
    }
  }

  lemma LinkSucc(graph: map<string, set<string>>, reverse: map<string, set<string>>, t: string, deps: seq<string>)
    ensures forall x :: Succ(LinkForward(graph, t, deps), x) == Succ(graph, x) + (if x == t then Elems(deps) else {})
    ensures forall d :: Succ(LinkBackward(reverse, t, deps), d) == Succ(reverse, d) + (if d in deps then {t} else {})
    ensures LinkForward(graph, t, deps).Keys <= graph.Keys + {t}
  {
    LinkForwardSucc(graph, t, deps);
    LinkBackwardSucc(reverse, t, deps);
  }

  /** Linking a task to its dependencies on both sides keeps the maps mirrored. */
  lemma LinkMirrored(graph: map<string, set<string>>, reverse: map<string, set<string>>, t: string, deps: seq<string>)
    requires Mirrored(graph, reverse)
    ensures Mirrored(LinkForward(graph, t, deps), LinkBackward(reverse, t, deps))
  {
    LinkSucc(graph, reverse, t, deps);
    var g, r := LinkForward(graph, t, deps), LinkBackward(reverse, t, deps);
    forall x, d ensures d in Succ(g, x) <==> x in Succ(r, d) {
      assert d in Succ(g, x) <==> d in Succ(graph, x) || (x == t && d in deps);
      assert x in Succ(r, d) <==> x in Succ(reverse, d) || (x == t && d in deps);
    }
  }

  // ---------------------------------------------------------------------------
  // The state of the depth-first search in `has_cycle`
  // ---------------------------------------------------------------------------

  /** Every ranked node's dependencies are ranked, and lower. */
  ghost predicate RankedBelow(g: map<string, set<string>>, rank: map<string, int>)
  {
    forall x, y :: x in rank && y in Succ(g, x) ==> y in rank && rank[y] < rank[x]
  }

  /**
   * The state of the depth-first search: `stack` is the path of open calls
   * and `recStack` its nodes; the visited nodes not on it are the finished
   * ones, which carry ranks below `next`, each above its dependencies' ranks.
   */
  ghost predicate SearchState(g: map<string, set<string>>, visited: set<string>, recStack: set<string>, stack: seq<string>,
                              rank: map<string, int>, next: int)
  {
    && recStack == Elems(stack)
    && recStack <= visited
    && rank.Keys == visited - recStack
    && (forall x :: x in rank ==> rank[x] < next)
    && RankedBelow(g, rank)
    && IsPath(g, stack)
  }

  /** Opening a call on an unvisited node reachable from the top of the stack. */
  lemma EnterNode(g: map<string, set<string>>, visited: set<string>, recStack: set<string>, stack: seq<string>,
                  rank: map<string, int>, next: int, node: string)
    requires SearchState(g, visited, recStack, stack, rank, next)
    requires node !in visited
    requires stack != [] ==> node in Succ(g, stack[|stack| - 1])
    ensures SearchState(g, visited + {node}, recStack + {node}, stack + [node], rank, next)
    ensures node !in stack
  {
    assert Elems(stack + [node]) == Elems(stack) + {node};
    if stack != [] {
      ExtendPath(g, stack, node);
    }
  }

  /** Closing the call on `node` once all of its dependencies are finished. */
  lemma LeaveNode(g: map<string, set<string>>, visited: set<string>, recStack: set<string>, stack: seq<string>,
                  rank: map<string, int>, next: int, node: string)
    requires SearchState(g, visited, recStack, stack + [node], rank, next)
    requires node !in stack
    requires forall y :: y in Succ(g, node) ==> y in visited && y !in recStack
    ensures SearchState(g, visited, recStack - {node}, stack, rank[node := next], next + 1)
  {
    assert Elems(stack + [node]) == Elems(stack) + {node};
    SubPath(g, stack + [node], 0, |stack|);
    assert (stack + [node])[0..|stack|] == stack;
  }

  // ---------------------------------------------------------------------------
  // The ready queue and the order produced by `topological_sort`
  // ---------------------------------------------------------------------------

  /** The priority of a stored task (0 for an id that is not stored; the queue never holds one). */
  function Prio(tasks: map<string, SchedulableTask>, id: string): int {
    if id in tasks then tasks[id].priority else 0
  }

  /**
   * Python's order on the queue entries `(-priority, task_id)`: the higher
   * priority first, and between equal priorities the smaller id.
   */
  predicate KeyBefore(tasks: map<string, SchedulableTask>, a: string, b: string) {
    Prio(tasks, a) > Prio(tasks, b) || (Prio(tasks, a) == Prio(tasks, b) && StrLess(a, b))
  }

  lemma KeyBeforeIrreflexive(tasks: map<string, SchedulableTask>, a: string)
    ensures !KeyBefore(tasks, a, a)
  {
    StrLessIrreflexive(a);
  }

  /** Two entries are never each before the other. */
  lemma KeyBeforeAsymmetric(tasks: map<string, SchedulableTask>, a: string, b: string)
    ensures !(KeyBefore(tasks, a, b) && KeyBefore(tasks, b, a))
  {
    if StrLess(a, b) && StrLess(b, a) {
      StrLessTransitive(a, b, a);
      StrLessIrreflexive(a);
    }
  }

  lemma KeyBeforeTransitive(tasks: map<string, SchedulableTask>, a: string, b: string, c: string)
    requires KeyBefore(tasks, a, b) && KeyBefore(tasks, b, c)
    ensures KeyBefore(tasks, a, c)
  {
    if Prio(tasks, a) == Prio(tasks, b) == Prio(tasks, c) {
      StrLessTransitive(a, b, c);
    }
  }

  /** Entries for two different ids are never tied. */
  lemma KeyBeforeTotal(tasks: map<string, SchedulableTask>, a: string, b: string)
    requires a != b
    ensures KeyBefore(tasks, a, b) || KeyBefore(tasks, b, a)
  {
    StrLessTotal(a, b);
  }

  /** The queue is strictly ordered (and so holds each id once). */
  ghost predicate SortedByKey(tasks: map<string, SchedulableTask>, q: seq<string>) {
    forall i, j :: 0 <= i < j < |q| ==> KeyBefore(tasks, q[i], q[j])
  }

  /** `x` placed before the first entry it precedes. */
  function InsertByKey(tasks: map<string, SchedulableTask>, x: string, q: seq<string>): (r: seq<string>)
    ensures |r| == |q| + 1
    ensures forall y :: y in r <==> y == x || y in q
  {
    if q == [] then [x]
    else if KeyBefore(tasks, x, q[0]) then [x] + q
    else
      assert forall y :: y in q <==> y == q[0] || y in q[1..];
      [q[0]] + InsertByKey(tasks, x, q[1..])
  }

  /** `queue.sort()` on a queue of distinct ids. */
  function SortByKey(tasks: map<string, SchedulableTask>, s: seq<string>): (r: seq<string>)
    ensures |r| == |s|
    ensures forall y :: y in r <==> y in s
  {
    if s == [] then []
    else
      assert forall y :: y in s <==> y in s[..|s| - 1] || y == s[|s| - 1];
      InsertByKey(tasks, s[|s| - 1], SortByKey(tasks, s[..|s| - 1]))
  }

  lemma {:induction false} InsertByKeySorted(tasks: map<string, SchedulableTask>, x: string, q: seq<string>)
    requires SortedByKey(tasks, q) && x !in q
    ensures SortedByKey(tasks, InsertByKey(tasks, x, q))
    decreases |q|
  {
    if q == [] {
    } else if KeyBefore(tasks, x, q[0]) {
      forall j | 0 <= j < |q| ensures KeyBefore(tasks, x, q[j]) {
        if j > 0 {
          KeyBeforeTransitive(tasks, x, q[0], q[j]);
        }
      }
    } else {
      KeyBeforeTotal(tasks, x, q[0]);
      InsertByKeySorted(tasks, x, q[1..]);
      var rest := InsertByKey(tasks, x, q[1..]);
      forall j | 0 <= j < |rest| ensures KeyBefore(tasks, q[0], rest[j]) {
        assert rest[j] in rest;
        if rest[j] != x {
          var k :| 0 <= k < |q[1..]| && q[1..][k] == rest[j];
          assert q[1..][k] == q[k + 1];
        }
      }
    }
  }

  /** Sorting a queue of distinct ids orders it strictly. */
  lemma {:induction false} SortByKeySorted(tasks: map<string, SchedulableTask>, s: seq<string>)
    requires Distinct(s)
    ensures SortedByKey(tasks, SortByKey(tasks, s))
    decreases |s|
  {
    if s != [] {
      var init := s[..|s| - 1];
      assert Distinct(init) && s[|s| - 1] !in init;
      SortByKeySorted(tasks, init);
      InsertByKeySorted(tasks, s[|s| - 1], SortByKey(tasks, init));
    }
  }

  /** A strictly ordered sequence is determined by its elements: whatever algorithm sorts, the queue is the same. */
  lemma {:induction false} SortedByKeyUnique(tasks: map<string, SchedulableTask>, a: seq<string>, b: seq<string>)
    requires SortedByKey(tasks, a) && SortedByKey(tasks, b)
    requires forall y :: y in a <==> y in b
    ensures a == b
    decreases |a|
  {
    if a != [] {
      assert a[0] in b;
    }
    if b != [] {
      assert b[0] in a;
    }
    if a != [] && b != [] {
      assert a[0] in a && b[0] in b;
      KeyBeforeAsymmetric(tasks, a[0], b[0]);
      var i :| 0 <= i < |b| && b[i] == a[0];
      var j :| 0 <= j < |a| && a[j] == b[0];
      assert a[0] == b[0];
      forall y ensures y in a[1..] <==> y in b[1..] {
        KeyBeforeIrreflexive(tasks, y);
        assert y in a <==> y == a[0] || y in a[1..];
        assert y in b <==> y == b[0] || y in b[1..];
        if y in a[1..] {
          var k :| 1 <= k < |a| && a[k] == y;
        }
        if y in b[1..] {
          var k :| 1 <= k < |b| && b[k] == y;
        }
      }
      SortedByKeyUnique(tasks, a[1..], b[1..]);
      assert a == [a[0]] + a[1..] && b == [b[0]] + b[1..];
    }
  }

  /** `t` is a stored task, not yet emitted, whose dependencies have all been emitted. */
  ghost predicate IsReady(g: map<string, set<string>>, tasks: map<string, SchedulableTask>, done: set<string>, t: string) {
    t in tasks && t !in done && Succ(g, t) <= done
  }

  /** `r[i]` was ready when it was emitted and came first in queue order among the tasks ready then. */
  ghost predicate GreedyAt(g: map<string, set<string>>, tasks: map<string, SchedulableTask>, r: seq<string>, i: int)
    requires 0 <= i < |r|
  {
    && IsReady(g, tasks, Elems(r[..i]), r[i])
    && forall y :: IsReady(g, tasks, Elems(r[..i]), y) && y != r[i] ==> KeyBefore(tasks, r[i], y)
  }

  /**
   * The order `topological_sort` emits: every task, when emitted, is the
   * first ready task in queue order, and when it stops no task is ready.
   */
  ghost predicate KahnOrder(g: map<string, set<string>>, tasks: map<string, SchedulableTask>, r: seq<string>) {
    && (forall i :: 0 <= i < |r| ==> GreedyAt(g, tasks, r, i))
    && (forall t :: !IsReady(g, tasks, Elems(r), t))
  }

  /** Each task is listed at most once, and only stored tasks are listed. */
  lemma KahnDistinct(g: map<string, set<string>>, tasks: map<string, SchedulableTask>, r: seq<string>)
    requires KahnOrder(g, tasks, r)
    ensures Distinct(r) && Elems(r) <= tasks.Keys
  {
    forall i, j | 0 <= i < j < |r| ensures r[i] != r[j] {
      assert GreedyAt(g, tasks, r, j);
      assert r[i] in Elems(r[..j]) by {
        assert r[..j][i] == r[i];
      }
    }
    forall t | t in Elems(r) ensures t in tasks {
      var i :| 0 <= i < |r| && r[i] == t;
      assert GreedyAt(g, tasks, r, i);
    }
  }

  /** Every dependency of a listed task is listed, and earlier. */
  lemma KahnDepsFirst(g: map<string, set<string>>, tasks: map<string, SchedulableTask>, r: seq<string>)
    requires KahnOrder(g, tasks, r)
    ensures forall i, d :: 0 <= i < |r| && d in Succ(g, r[i]) ==> d in r[..i]
    ensures forall i, j :: 0 <= i < |r| && 0 <= j < |r| && r[j] in Succ(g, r[i]) ==> j < i
  {
    KahnDistinct(g, tasks, r);
    forall i, d | 0 <= i < |r| && d in Succ(g, r[i]) ensures d in r[..i] {
      assert GreedyAt(g, tasks, r, i);
    }
    forall i, j | 0 <= i < |r| && 0 <= j < |r| && r[j] in Succ(g, r[i]) ensures j < i {
      assert GreedyAt(g, tasks, r, i);
      assert r[j] in r[..i];
      var k :| 0 <= k < i && r[..i][k] == r[j];
      assert r[k] == r[j];
    }
  }

  /** Without a cycle, and with every dependency a stored task, every task is listed. */
  lemma KahnComplete(g: map<string, set<string>>, tasks: map<string, SchedulableTask>, r: seq<string>)
    requires KahnOrder(g, tasks, r)
    requires !Cyclic(g)
    requires forall t :: t in tasks ==> Succ(g, t) <= tasks.Keys
    ensures Elems(r) == tasks.Keys
  {
    KahnDistinct(g, tasks, r);
    var u := tasks.Keys - Elems(r);
    if u != {} {
      forall x | x in u ensures Succ(g, x) * u != {} {
        assert !IsReady(g, tasks, Elems(r), x);
        var y :| y in Succ(g, x) && y !in Elems(r);
        assert y in Succ(g, x) * u;
      }
      CycleInClosedSet(g, u);
    } else {
      forall t | t in tasks ensures t in Elems(r) {
        assert t !in u;
      }
    }
  }

  /** Two greedy orders that agree up to `n` agree at `n` as well, and end together. */
  lemma KahnAgree(g: map<string, set<string>>, tasks: map<string, SchedulableTask>, a: seq<string>, b: seq<string>, n: int)
    requires KahnOrder(g, tasks, a) && KahnOrder(g, tasks, b)
    requires 0 <= n <= |a| && n <= |b| && a[..n] == b[..n]
    ensures n < |a| <==> n < |b|
    ensures n < |a| && n < |b| ==> a[n] == b[n]
  {
    assert a[..|a|] == a && b[..|b|] == b;
    if n < |a| {
      assert GreedyAt(g, tasks, a, n);
    }
    if n < |b| {
      assert GreedyAt(g, tasks, b, n);
    }
    if n < |a| && n < |b| {
      KeyBeforeAsymmetric(tasks, a[n], b[n]);
    }
  }

  /** The order is determined by the graph and the priorities alone. */
  lemma KahnUnique(g: map<string, set<string>>, tasks: map<string, SchedulableTask>, a: seq<string>, b: seq<string>)
    requires KahnOrder(g, tasks, a) && KahnOrder(g, tasks, b)
    ensures a == b
  {
    var n := 0;
    while n < |a|
      invariant 0 <= n <= |a| && n <= |b|
      invariant a[..n] == b[..n]
    {
      KahnAgree(g, tasks, a, b, n);
      assert a[..n + 1] == a[..n] + [a[n]] && b[..n + 1] == b[..n] + [b[n]];
      n := n + 1;
    }
    KahnAgree(g, tasks, a, b, n);
    assert a == a[..n] && b == b[..n];
  }

  // The state of the loop in `topological_sort`

  /** `indeg[t]` counts the dependencies of `t` not yet emitted, plus one while `t` is still to be decremented. */
  ghost predicate Counted(g: map<string, set<string>>, tasks: map<string, SchedulableTask>, indeg: map<string, int>,
                          done: set<string>, todo: set<string>)
  {
    forall t :: t in tasks ==> t in indeg && indeg[t] == |Succ(g, t) - done| + (if t in todo then 1 else 0)
  }

  /** The queue holds, in order, the ready tasks that are not still to be decremented. */
  ghost predicate Queued(g: map<string, set<string>>, tasks: map<string, SchedulableTask>, queue: seq<string>,
                         done: set<string>, todo: set<string>)
  {
    && SortedByKey(tasks, queue)
    && forall t :: t in queue <==> IsReady(g, tasks, done, t) && t !in todo
  }

  /** The tasks still to be decremented are stored and not yet emitted. */
  ghost predicate Waiting(tasks: map<string, SchedulableTask>, done: set<string>, todo: set<string>) {
    forall t :: t in todo ==> t in tasks && t !in done
  }

  /** The head of the queue extends the greedy order. */
  lemma PopGreedy(g: map<string, set<string>>, tasks: map<string, SchedulableTask>, queue: seq<string>, result: seq<string>)
    requires Queued(g, tasks, queue, Elems(result), {}) && queue != []
    requires forall i :: 0 <= i < |result| ==> GreedyAt(g, tasks, result, i)
    ensures queue[0] in tasks && queue[0] !in Elems(result) && Succ(g, queue[0]) <= Elems(result)
    ensures forall i :: 0 <= i < |result + [queue[0]]| ==> GreedyAt(g, tasks, result + [queue[0]], i)
    ensures Elems(result + [queue[0]]) == Elems(result) + {queue[0]}
  {
    var x := queue[0];
    var r := result + [x];
    var done := Elems(result);
    assert IsReady(g, tasks, done, x);
    forall i | 0 <= i < |r| ensures GreedyAt(g, tasks, r, i) {
      if i == |result| {
        assert r[..i] == result;
        forall y | IsReady(g, tasks, done, y) && y != x ensures KeyBefore(tasks, x, y) {
          var k :| 0 <= k < |queue| && queue[k] == y;
        }
      } else {
        assert r[..i] == result[..i];
        assert GreedyAt(g, tasks, result, i);
      }
    }
  }

  /** Emitting `x` takes it off the count of exactly its dependents. */
  lemma PopCounted(g: map<string, set<string>>, tasks: map<string, SchedulableTask>, indeg: map<string, int>,
                   done: set<string>, x: string, dependents: set<string>)
    requires Counted(g, tasks, indeg, done, {}) && x !in done
    requires forall t :: t in dependents <==> x in Succ(g, t)
    ensures Counted(g, tasks, indeg, done + {x}, dependents)
  {
    forall t | t in tasks ensures indeg[t] == |Succ(g, t) - (done + {x})| + (if t in dependents then 1 else 0) {
      if t in dependents {
        assert Succ(g, t) - (done + {x}) == (Succ(g, t) - done) - {x};
      } else {
        assert Succ(g, t) - (done + {x}) == Succ(g, t) - done;
      }
    }
  }

  /** Without its head the queue holds the tasks ready after it, except its dependents. */
  lemma PopQueued(g: map<string, set<string>>, tasks: map<string, SchedulableTask>, queue: seq<string>,
                  done: set<string>, dependents: set<string>)
    requires Queued(g, tasks, queue, done, {}) && queue != []
    requires forall t :: t in dependents <==> queue[0] in Succ(g, t)
    ensures Queued(g, tasks, queue[1..], done + {queue[0]}, dependents)
  {
    var x := queue[0];
    assert queue == [x] + queue[1..];
    assert IsReady(g, tasks, done, x);
    forall t ensures t in queue[1..] <==> IsReady(g, tasks, done + {x}, t) && t !in dependents {
      if t in queue[1..] {
        var k :| 1 <= k < |queue| && queue[k] == t;
        KeyBeforeIrreflexive(tasks, x);
        assert IsReady(g, tasks, done, t);
      }
      if IsReady(g, tasks, done + {x}, t) && t !in dependents {
        assert IsReady(g, tasks, done, t);
      }
    }
  }

  /** The dependents of a task that is only now emitted are stored and not emitted yet. */
  lemma PopWaiting(g: map<string, set<string>>, tasks: map<string, SchedulableTask>, result: seq<string>,
                   x: string, dependents: set<string>)
    requires forall i :: 0 <= i < |result| ==> GreedyAt(g, tasks, result, i)
    requires x !in Elems(result) && Succ(g, x) <= Elems(result) && g.Keys <= tasks.Keys
    requires forall t :: t in dependents <==> x in Succ(g, t)
    ensures Waiting(tasks, Elems(result) + {x}, dependents)
  {
    forall i | 0 <= i < |result| ensures x !in Succ(g, result[i]) {
      assert GreedyAt(g, tasks, result, i);
      assert Elems(result[..i]) <= Elems(result) by {
        assert forall k :: 0 <= k < i ==> result[..i][k] == result[k];
      }
    }
    forall t | t in dependents ensures t in tasks && t !in Elems(result) + {x} {
      assert t in g;
    }
  }

  /** A task that has become ready joins the queue, which is sorted again. */
  lemma QueueInsert(g: map<string, set<string>>, tasks: map<string, SchedulableTask>, queue: seq<string>,
                    done: set<string>, todo: set<string>, t: string)
    requires Queued(g, tasks, queue, done, todo) && t in todo && IsReady(g, tasks, done, t)
    ensures Queued(g, tasks, SortByKey(tasks, queue + [t]), done, todo - {t})
  {
    forall i, j | 0 <= i < j < |queue| ensures queue[i] != queue[j] {
      KeyBeforeIrreflexive(tasks, queue[i]);
    }
    assert t !in queue;
    SortByKeySorted(tasks, queue + [t]);
    var q := SortByKey(tasks, queue + [t]);
    forall y ensures y in q <==> IsReady(g, tasks, done, y) && y !in todo - {t} {
      assert y in q <==> y in queue + [t];
      assert y in queue + [t] <==> y in queue || y == t;
    }
  }

  /** Decrementing the count of one dependent, and queueing it when it drops to zero. */
  lemma DecrementStep(g: map<string, set<string>>, tasks: map<string, SchedulableTask>, indeg: map<string, int>,
                      queue: seq<string>, done: set<string>, todo: set<string>, t: string)
    requires Counted(g, tasks, indeg, done, todo) && Queued(g, tasks, queue, done, todo) && Waiting(tasks, done, todo)
    requires t in todo
    ensures t in indeg
    ensures var indeg' := indeg[t := indeg[t] - 1];
            && Counted(g, tasks, indeg', done, todo - {t})
            && Waiting(tasks, done, todo - {t})
            && (indeg'[t] == 0 ==> Queued(g, tasks, SortByKey(tasks, queue + [t]), done, todo - {t}))
            && (indeg'[t] != 0 ==> Queued(g, tasks, queue, done, todo - {t}))
  {
    var indeg' := indeg[t := indeg[t] - 1];
    CountDecrement(g, tasks, indeg, done, todo, t);
    if indeg'[t] == 0 {
      assert Succ(g, t) - done == {};
      assert forall y :: y in Succ(g, t) ==> y in done by {
        forall y | y in Succ(g, t) ensures y in done {
          assert y !in Succ(g, t) - done;
        }
      }
      assert t in tasks && t !in done;
      QueueInsert(g, tasks, queue, done, todo, t);
    } else {
      assert Succ(g, t) - done != {};
    }
  }

  lemma CountDecrement(g: map<string, set<string>>, tasks: map<string, SchedulableTask>, indeg: map<string, int>,
                       done: set<string>, todo: set<string>, t: string)
    requires Counted(g, tasks, indeg, done, todo) && Waiting(tasks, done, todo) && t in todo
    ensures t in indeg && indeg[t] == |Succ(g, t) - done| + 1
    ensures Counted(g, tasks, indeg[t := indeg[t] - 1], done, todo - {t})
    ensures Waiting(tasks, done, todo - {t})
  {
  }

  /** The first loop of `topological_sort`: every task's number of dependencies. */
  method InDegrees(g: map<string, set<string>>, tasks: map<string, SchedulableTask>, order: seq<string>)
    returns (indeg: map<string, int>)
    requires OrderedKeys(order, tasks)
    ensures Counted(g, tasks, indeg, {}, {})
  {
    indeg := map[];
    var i := 0;
    while i < |order|
      invariant 0 <= i <= |order|
      invariant forall k :: 0 <= k < i ==> order[k] in indeg && indeg[order[k]] == |Succ(g, order[k]) - {}|
    {
      assert Succ(g, order[i]) - {} == Succ(g, order[i]);
      indeg := indeg[order[i] := |Succ(g, order[i])|];
      i := i + 1;
    }
  }

  /** The tasks without dependencies, in insertion order, then sorted. */
  method InitialQueue(ghost g: map<string, set<string>>, tasks: map<string, SchedulableTask>, order: seq<string>,
                      indeg: map<string, int>)
    returns (queue: seq<string>)
    requires OrderedKeys(order, tasks) && Counted(g, tasks, indeg, {}, {})
    ensures Queued(g, tasks, queue, {}, {})
  {
    queue := [];
    var i := 0;
    while i < |order|
      invariant 0 <= i <= |order|
      invariant Distinct(queue)
      invariant forall t :: t in queue <==> t in order[..i] && indeg[t] == 0
    {
      assert order[..i + 1] == order[..i] + [order[i]];
      if indeg[order[i]] == 0 {
        queue := queue + [order[i]];
      }
      i := i + 1;
    }
    assert order[..i] == order;
    SortByKeySorted(tasks, queue);
    queue := SortByKey(tasks, queue);
  }

  /**
   * The inner loop of `topological_sort`: one less pending dependency for each
   * dependent of the task just emitted, queueing those that reach zero.
   */
  method Release(ghost g: map<string, set<string>>, tasks: map<string, SchedulableTask>, indeg: map<string, int>,
                 queue: seq<string>, ghost done: set<string>, dependents: set<string>)
    returns (indeg': map<string, int>, queue': seq<string>)
    requires Counted(g, tasks, indeg, done, dependents) && Queued(g, tasks, queue, done, dependents)
    requires Waiting(tasks, done, dependents)
    ensures Counted(g, tasks, indeg', done, {}) && Queued(g, tasks, queue', done, {})
  {
    indeg', queue' := indeg, queue;
    var todo := dependents;
    while todo != {}
      invariant Counted(g, tasks, indeg', done, todo)
      invariant Queued(g, tasks, queue', done, todo)
      invariant Waiting(tasks, done, todo)
      decreases todo
    {
      var t :| t in todo;
      DecrementStep(g, tasks, indeg', queue', done, todo, t);
      indeg' := indeg'[t := indeg'[t] - 1];
      if indeg'[t] == 0 {
        queue' := SortByKey(tasks, queue' + [t]);
      }
      todo := todo - {t};
    }
  }

  /** The state of the main loop of `topological_sort` between two emissions; `done` holds the emitted ids. */
  ghost predicate KahnState(g: map<string, set<string>>, tasks: map<string, SchedulableTask>, indeg: map<string, int>,
                            queue: seq<string>, result: seq<string>, done: set<string>)
  {
    && done == Elems(result)
    && Counted(g, tasks, indeg, done, {})
    && Queued(g, tasks, queue, done, {})
    && (forall k :: 0 <= k < |result| ==> GreedyAt(g, tasks, result, k))
  }

  /** Popping the head `x` of the queue: the dependents of `x` are to be decremented. */
  lemma PopStep(g: map<string, set<string>>, tasks: map<string, SchedulableTask>, indeg: map<string, int>,
                queue: seq<string>, result: seq<string>, done: set<string>, dependents: set<string>)
    requires KahnState(g, tasks, indeg, queue, result, done) && queue != [] && g.Keys <= tasks.Keys
    requires forall t :: t in dependents <==> queue[0] in Succ(g, t)
    ensures queue[0] in tasks && queue[0] !in done
    ensures && Counted(g, tasks, indeg, done + {queue[0]}, dependents)
            && Queued(g, tasks, queue[1..], done + {queue[0]}, dependents)
            && Waiting(tasks, done + {queue[0]}, dependents)
  {
    var x := queue[0];
    PopGreedy(g, tasks, queue, result);
    PopCounted(g, tasks, indeg, done, x, dependents);
    PopQueued(g, tasks, queue, done, dependents);
    PopWaiting(g, tasks, result, x, dependents);
  }

  /** After the dependents are decremented, the loop state holds for the longer result. */
  lemma PushStep(g: map<string, set<string>>, tasks: map<string, SchedulableTask>, indeg: map<string, int>,
                 queue: seq<string>, result: seq<string>, done: set<string>, indeg': map<string, int>, queue': seq<string>)
    requires done == Elems(result) && Queued(g, tasks, queue, done, {}) && queue != []
    requires forall k :: 0 <= k < |result| ==> GreedyAt(g, tasks, result, k)
    requires Counted(g, tasks, indeg', done + {queue[0]}, {}) && Queued(g, tasks, queue', done + {queue[0]}, {})
    ensures KahnState(g, tasks, indeg', queue', result + [queue[0]], done + {queue[0]})
  {
    PopGreedy(g, tasks, queue, result);
  }

  /** The main loop of `topological_sort`: emit the head of the queue until it is empty. */
  method Kahn(ghost g: map<string, set<string>>, rev: map<string, set<string>>, tasks: map<string, SchedulableTask>,
              indeg0: map<string, int>, queue0: seq<string>)
    returns (result: seq<string>)
    requires Mirrored(g, rev) && g.Keys <= tasks.Keys
    requires Counted(g, tasks, indeg0, {}, {}) && Queued(g, tasks, queue0, {}, {})
    ensures KahnOrder(g, tasks, result)
  {
    var indeg, queue := indeg0, queue0;
    result := [];
    ghost var done: set<string> := {};
    while queue != []
      invariant KahnState(g, tasks, indeg, queue, result, done)
      invariant done <= tasks.Keys
      decreases |tasks.Keys - done|
    {
      var x := queue[0];
      var dependents := Succ(rev, x);
      assert forall t :: t in dependents <==> x in Succ(g, t);
      PopStep(g, tasks, indeg, queue, result, done, dependents);
      var indeg', queue' := Release(g, tasks, indeg, queue[1..], done + {x}, dependents);
      PushStep(g, tasks, indeg, queue, result, done, indeg', queue');
      ProperSubsetCard(tasks.Keys - (done + {x}), tasks.Keys - done);
      indeg, queue, result, done := indeg', queue', result + [x], done + {x};
    }
  }

  // ---------------------------------------------------------------------------
  // The ready set of `get_ready_tasks`
  // ---------------------------------------------------------------------------

  function TaskPriority(t: SchedulableTask): int {
    t.priority
  }

  /** The pending tasks among `ids` whose dependencies are all in `completed`, in the order of `ids`. */
  function ReadyIn(g: map<string, set<string>>, tasks: map<string, SchedulableTask>, ids: seq<string>,
                   completed: set<string>): seq<SchedulableTask>
    requires forall k :: k in ids ==> k in tasks
  {
    if ids == [] then []
    else
      var id := ids[|ids| - 1];
      ReadyIn(g, tasks, ids[..|ids| - 1], completed)
        + (if tasks[id].status == Pending && Succ(g, id) <= completed then [tasks[id]] else [])
  }

  /** What `get_ready_tasks` returns: the ready tasks in insertion order, stably sorted by descending priority. */
  function ReadyTasks(g: map<string, set<string>>, tasks: map<string, SchedulableTask>, order: seq<string>,
                      completed: set<string>): seq<SchedulableTask>
    requires forall k :: k in order ==> k in tasks
  {
    Ranking.SortDesc(ReadyIn(g, tasks, order, completed), TaskPriority)
  }

  lemma {:induction false} ReadyInMembers(g: map<string, set<string>>, tasks: map<string, SchedulableTask>,
                                          ids: seq<string>, completed: set<string>)
    requires forall k :: k in ids ==> k in tasks
    requires forall k :: k in tasks ==> tasks[k].taskId == k
    ensures forall t :: t in ReadyIn(g, tasks, ids, completed) <==>
              && t.taskId in ids && tasks[t.taskId] == t
              && t.status == Pending && Succ(g, t.taskId) <= completed
    decreases |ids|
  {
    if ids != [] {
      ReadyInMembers(g, tasks, ids[..|ids| - 1], completed);
      assert forall k :: k in ids <==> k in ids[..|ids| - 1] || k == ids[|ids| - 1];
    }
  }

  /**
   * The ready list holds exactly the stored pending tasks whose dependencies
   * are all completed, by non-increasing priority, and tasks of equal
   * priority keep their insertion order.
   */
  lemma ReadyTasksMeaning(g: map<string, set<string>>, tasks: map<string, SchedulableTask>, order: seq<string>,
                          completed: set<string>)
    requires OrderedKeys(order, tasks)
    ensures var r := ReadyTasks(g, tasks, order, completed);
            && (forall t :: t in r <==>
                  t.taskId in tasks && tasks[t.taskId] == t && t.status == Pending && Succ(g, t.taskId) <= completed)
            && Ranking.SortedDesc(r, TaskPriority)
            && forall p :: Ranking.WithKey(r, TaskPriority, p) == Ranking.WithKey(ReadyIn(g, tasks, order, completed), TaskPriority, p)
  {
    var s := ReadyIn(g, tasks, order, completed);
    ReadyInMembers(g, tasks, order, completed);
    var r := Ranking.SortDesc(s, TaskPriority);
    forall t ensures t in r <==> t in s {
      assert t in r <==> t in multiset(r);
      assert t in s <==> t in multiset(s);
    }
    Ranking.SortDescSorted(s, TaskPriority);
    forall p ensures Ranking.WithKey(r, TaskPriority, p) == Ranking.WithKey(s, TaskPriority, p) {
      Ranking.SortDescStable(s, TaskPriority, p);
    }
  }

  class DependencyGraph {
    /** A task and the tasks it depends on. */
    var graph: map<string, set<string>>
    /** A task and the tasks that depend on it. */
    var reverse: map<string, set<string>>
    var tasks: map<string, SchedulableTask>
    /** The ids of `tasks` in insertion order, the order the dictionary iterates in. */
    var order: seq<string>

    ghost predicate Valid()
      reads this
    {
      && OrderedKeys(order, tasks)
      && graph.Keys <= tasks.Keys
      && Mirrored(graph, reverse)
    }

    constructor ()
      ensures Valid()
      ensures graph == map[] && reverse == map[] && tasks == map[] && order == []
    {
      graph, reverse, tasks, order := map[], map[], map[], [];
    }

    /**
     * `add_task`: stores the task under its id (a new id goes last in the
     * iteration order) and adds each listed dependency both ways; earlier
     * dependencies of the same id are kept.
     */
    method AddTask(task: SchedulableTask)
      requires Valid()
      modifies this
      ensures Valid()
      ensures tasks == old(tasks)[task.taskId := task]
      ensures order == if task.taskId in old(tasks) then old(order) else old(order) + [task.taskId]
      ensures forall t :: Succ(graph, t)
                == Succ(old(graph), t) + (if t == task.taskId then Elems(task.dependencies) else {})
      ensures forall d :: Succ(reverse, d)
                == Succ(old(reverse), d) + (if d in task.dependencies then {task.taskId} else {})
    {
      var id := task.taskId;
      var g, r := graph, reverse;
      var i := 0;
      while i < |task.dependencies|
        modifies {}
        invariant 0 <= i <= |task.dependencies|
        invariant g == LinkForward(graph, id, task.dependencies[..i])
        invariant r == LinkBackward(reverse, id, task.dependencies[..i])
      {
        var dep := task.dependencies[i];
        assert task.dependencies[..i + 1] == task.dependencies[..i] + [dep];
        g := g[id := Succ(g, id) + {dep}];
        r := r[dep := Succ(r, dep) + {id}];
        i := i + 1;
      }
      assert task.dependencies[..i] == task.dependencies;
      LinkSucc(graph, reverse, id, task.dependencies);
      LinkMirrored(graph, reverse, id, task.dependencies);
      AddOrdered(order, tasks, task);
      if id !in tasks {
        order := order + [id];
      }
      tasks := tasks[id := task];
      graph, reverse := g, r;
    }

    /** `remove_task`: forgets the task and erases its id from every dependency set, both ways. */
    method RemoveTask(taskId: string)
      requires Valid()
      modifies this
      ensures Valid()
      ensures tasks == old(tasks) - {taskId}
      ensures order == Without(old(order), taskId)
      ensures forall t :: Succ(graph, t) == if t == taskId then {} else Succ(old(graph), t) - {taskId}
      ensures forall d :: Succ(reverse, d) == if d == taskId then {} else Succ(old(reverse), d) - {taskId}
    {
      if taskId in tasks {
        tasks := tasks - {taskId};
        order := Without(order, taskId);
      }
      var g, r := Erase(graph, taskId), Erase(reverse, taskId);
      UnlinkMirrored(graph, reverse, g, r, taskId);
      graph, reverse := g, r;
    }

    /** Replaces the stored task of an id (the scheduler's in-place updates of a task). */
    method SetTask(task: SchedulableTask)
      requires Valid() && task.taskId in tasks
      modifies this
      ensures Valid()
      ensures tasks == old(tasks)[task.taskId := task]
      ensures graph == old(graph) && reverse == old(reverse) && order == old(order)
    {
      tasks := tasks[task.taskId := task];
    }

    /** `get_ready_tasks(completed)`. */
    method GetReadyTasks(completed: set<string>) returns (ready: seq<SchedulableTask>)
      requires Valid()
      ensures ready == ReadyTasks(graph, tasks, order, completed)
    {
      ready := [];
      var i := 0;
      while i < |order|
        invariant 0 <= i <= |order|
        invariant ready == ReadyIn(graph, tasks, order[..i], completed)
      {
        var taskId := order[i];
        var task := tasks[taskId];
        assert order[..i + 1][..i] == order[..i];
        if task.status == Pending && Succ(graph, taskId) <= completed {
          ready := ready + [task];
        }
        i := i + 1;
      }
      assert order[..i] == order;
      ready := Ranking.SortDesc(ready, TaskPriority);
    }

    /** `get_dependencies`. */
    function GetDependencies(taskId: string): (r: set<string>)
      reads this
      requires Valid()
      ensures forall d :: d in r <==> taskId in Succ(reverse, d)
    {
      Succ(graph, taskId)
    }

    /** `get_dependents`. */
    function GetDependents(taskId: string): (r: set<string>)
      reads this
      requires Valid()
      ensures forall t :: t in r <==> taskId in Succ(graph, t)
    {
      Succ(reverse, taskId)
    }

    // -------------------------------------------------------------------------
    // Cycle detection
    // -------------------------------------------------------------------------

    /** Every node a search can meet: the tasks and every node named as a dependency. */
    ghost function Universe(): (u: set<string>)
      reads this
      ensures tasks.Keys <= u
      ensures forall x :: x in u ==> Succ(graph, x) <= u
    {
      var deps := set t, d | t in graph && d in graph[t] :: d;
      assert forall x :: x in graph ==> graph[x] <= deps;
      tasks.Keys + graph.Keys + deps
    }

    /**
     * The inner `dfs(node)`: true when it meets a node still on the stack.
     * `universe` is a finite set of nodes closed under dependencies; it only
     * bounds the recursion.
     */
    method Dfs(node: string, visited: set<string>, recStack: set<string>, ghost stack: seq<string>,
               ghost rank: map<string, int>, ghost next: int, ghost universe: set<string>)
      returns (found: bool, visited': set<string>, ghost rank': map<string, int>, ghost next': int)
      requires forall x :: x in universe ==> Succ(graph, x) <= universe
      requires node in universe && node !in visited && visited <= universe
      requires SearchState(graph, visited, recStack, stack, rank, next)
      requires stack != [] ==> node in Succ(graph, stack[|stack| - 1])
      ensures found ==> Cyclic(graph)
      ensures !found ==> && SearchState(graph, visited', recStack, stack, rank', next')
                         && node in visited' && visited <= visited' <= universe
      decreases |universe - visited|, 0
    {
      EnterNode(graph, visited, recStack, stack, rank, next, node);
      var vis := visited + {node};
      var rs := recStack + {node};
      ghost var st := stack + [node];
      ghost var rk := rank;
      ghost var nx := next;
      var todo := Succ(graph, node);
      while todo != {}
        invariant SearchState(graph, vis, rs, st, rk, nx)
        invariant visited <= vis <= universe && node in vis
        invariant todo <= Succ(graph, node)
        invariant forall y :: y in Succ(graph, node) && y !in todo ==> y in vis && y !in rs
        decreases todo
      {
        var neighbor :| neighbor in todo;
        todo := todo - {neighbor};
        ProperSubsetCard(universe - vis, universe - visited);
        found, vis, rk, nx := Visit(neighbor, vis, rs, st, rk, nx, universe);
        if found {
          return true, vis, rk, nx;
        }
      }
      LeaveNode(graph, vis, rs, stack, rk, nx, node);
      assert rs - {node} == recStack;
      return false, vis, rk[node := nx], nx + 1;
    }

    /** One neighbour of the node on top of the stack: recurse into it, or detect a back edge. */
    method Visit(neighbor: string, visited: set<string>, recStack: set<string>, ghost stack: seq<string>,
                 ghost rank: map<string, int>, ghost next: int, ghost universe: set<string>)
      returns (found: bool, visited': set<string>, ghost rank': map<string, int>, ghost next': int)
      requires forall x :: x in universe ==> Succ(graph, x) <= universe
      requires neighbor in universe && visited <= universe
      requires SearchState(graph, visited, recStack, stack, rank, next)
      requires stack != [] && neighbor in Succ(graph, stack[|stack| - 1])
      ensures found ==> Cyclic(graph)
      ensures !found ==> && SearchState(graph, visited', recStack, stack, rank', next')
                         && neighbor in visited' && neighbor !in recStack && visited <= visited' <= universe
      decreases |universe - visited|, 1
    {
      if neighbor !in visited {
        found, visited', rank', next' := Dfs(neighbor, visited, recStack, stack, rank, next, universe);
      } else if neighbor in recStack {
        BackEdge(stack, neighbor);
        found, visited', rank', next' := true, visited, rank, next;
      } else {
        found, visited', rank', next' := false, visited, rank, next;
      }
    }

    /** An edge from the top of the stack back into the stack closes a cycle. */
    lemma BackEdge(stack: seq<string>, neighbor: string)
      requires IsPath(graph, stack) && stack != [] && neighbor in stack
      requires neighbor in Succ(graph, stack[|stack| - 1])
      ensures Cyclic(graph)
    {
      var k :| 0 <= k < |stack| && stack[k] == neighbor;
      SubPath(graph, stack, k, |stack|);
      ExtendPath(graph, stack[k..], neighbor);
      assert IsCycle(graph, stack[k..] + [neighbor]);
    }

    /** `has_cycle`: a depth-first search from every task in turn. */
    method HasCycle() returns (r: bool)
      requires Valid()
      ensures r <==> Cyclic(graph)
    {
      var visited: set<string> := {};
      ghost var rank: map<string, int> := map[];
      ghost var next := 0;
      var i := 0;
      while i < |order|
        invariant 0 <= i <= |order|
        invariant SearchState(graph, visited, {}, [], rank, next) && visited <= Universe()
        invariant forall k :: 0 <= k < i ==> order[k] in visited
      {
        var taskId := order[i];
        if taskId !in visited {
          assert taskId in tasks;
          var f;
          f, visited, rank, next := Dfs(taskId, visited, {}, [], rank, next, Universe());
          if f {
            return true;
          }
        }
        i := i + 1;
      }
      forall x | x in graph ensures x in rank {
        var k :| 0 <= k < |order| && order[k] == x;
      }
      RankedAcyclic(graph, rank);
      return false;
    }

    /**
     * `topological_sort`: fails when `has_cycle` holds; otherwise Kahn's
     * algorithm, keeping the tasks whose dependencies have all been emitted
     * in a queue sorted by `(-priority, task_id)` and always emitting its head.
     */
    method TopologicalSort() returns (r: Result<seq<string>, SortError>)
      requires Valid()
      ensures r.Err? <==> Cyclic(graph)
      ensures r.Ok? ==> KahnOrder(graph, tasks, r.value)
    {
      var cyclic := HasCycle();
      if cyclic {
        return Err(CyclicDependency);
      }
      var indeg := InDegrees(graph, tasks, order);
      var queue := InitialQueue(graph, tasks, order, indeg);
      var result := Kahn(graph, reverse, tasks, indeg, queue);
      return Ok(result);
    }
  }

  // ---------------------------------------------------------------------------
  // Task state changes made by the scheduler
  // ---------------------------------------------------------------------------

  /** An entry of the execution history; timestamps and durations are not modelled. */
  datatype HistoryEntry = Finished(taskId: string) | GaveUp(taskId: string, error: string, retries: int)

  /** The task after `mark_failed`: one more retry, back to pending while retries remain, failed otherwise. */
  function AfterFailure(t: SchedulableTask, error: string): SchedulableTask {
    var retries := t.retries + 1;
    t.(error := Some(error), retries := retries, status := if retries < t.maxRetries then Pending else Failed)
  }

  /** The task after failing once for each of `errors`, in order. */
  function FailAll(t: SchedulableTask, errors: seq<string>): SchedulableTask {
    if errors == [] then t else AfterFailure(FailAll(t, errors[..|errors| - 1]), errors[|errors| - 1])
  }

  /**
   * The retry state machine: a task that fails `k >= 1` times in a row has
   * `k` more retries, the last error, and is pending again exactly when its
   * retry count is still below its limit, failed for good otherwise; nothing
   * else about it changes.
   */
  lemma {:induction false} FailAllRetries(t: SchedulableTask, errors: seq<string>)
    requires errors != []
    ensures var r := FailAll(t, errors);
            && r.retries == t.retries + |errors|
            && r.error == Some(errors[|errors| - 1])
            && (r.status == Pending <==> t.retries + |errors| < t.maxRetries)
            && (r.status == Failed <==> t.retries + |errors| >= t.maxRetries)
            && r.(status := t.status, error := t.error, retries := t.retries) == t
    decreases |errors|
  {
    if |errors| > 1 {
      FailAllRetries(t, errors[..|errors| - 1]);
    }
  }

  /** With the default limit of 3, a new task is retried twice and given up on its third failure. */
  lemma DefaultRetries(id: string, description: string, deps: seq<string>, e1: string, e2: string, e3: string)
    ensures FailAll(NewTask(id, description, deps), [e1]).status == Pending
    ensures FailAll(NewTask(id, description, deps), [e1, e2]).status == Pending
    ensures FailAll(NewTask(id, description, deps), [e1, e2, e3]).status == Failed
  {
    FailAllRetries(NewTask(id, description, deps), [e1]);
    FailAllRetries(NewTask(id, description, deps), [e1, e2]);
    FailAllRetries(NewTask(id, description, deps), [e1, e2, e3]);
  }

  /** The task as `reset` leaves it: pending, no error, no retries used. */
  function ResetTask(t: SchedulableTask): SchedulableTask {
    t.(status := Pending, error := None, retries := 0)
  }

  /** The stored tasks after adding each of `ts` in turn. */
  function StoreAll(tasks: map<string, SchedulableTask>, ts: seq<SchedulableTask>): map<string, SchedulableTask> {
    if ts == [] then tasks else StoreAll(tasks, ts[..|ts| - 1])[ts[|ts| - 1].taskId := ts[|ts| - 1]]
  }

  /** Adding several tasks keeps the earlier tasks of other ids, and a later task of the same id wins. */
  lemma {:induction false} StoreAllLookup(tasks: map<string, SchedulableTask>, ts: seq<SchedulableTask>, id: string)
    ensures id in StoreAll(tasks, ts) <==> id in tasks || exists i :: 0 <= i < |ts| && ts[i].taskId == id
    ensures (forall i :: 0 <= i < |ts| ==> ts[i].taskId != id) ==> id !in tasks || StoreAll(tasks, ts)[id] == tasks[id]
    ensures forall i :: 0 <= i < |ts| && ts[i].taskId == id && (forall j :: i < j < |ts| ==> ts[j].taskId != id)
              ==> id in StoreAll(tasks, ts) && StoreAll(tasks, ts)[id] == ts[i]
    decreases |ts|
  {
    if ts != [] {
      var init := ts[..|ts| - 1];
      StoreAllLookup(tasks, init, id);
      assert forall i :: 0 <= i < |init| ==> init[i] == ts[i];
    }
  }

  /** Python's `max(1, min(10, x))`: the priority range is 1 to 10. */
  function Clamp(x: int): (r: int)
    ensures 1 <= r <= 10
    ensures 1 <= x <= 10 ==> r == x
    ensures x < 1 ==> r == 1
    ensures x > 10 ==> r == 10
  {
    if x > 10 then 10 else if x < 1 then 1 else x
  }

  // ---------------------------------------------------------------------------
  // The groups of `get_parallel_groups`
  // ---------------------------------------------------------------------------

  /** All ids of the groups so far. */
  function Union(groups: seq<set<string>>): set<string> {
    if groups == [] then {} else Union(groups[..|groups| - 1]) + groups[|groups| - 1]
  }

  lemma {:induction false} UnionMembers(groups: seq<set<string>>)
    ensures forall t :: t in Union(groups) <==> exists i :: 0 <= i < |groups| && t in groups[i]
    decreases |groups|
  {
    if groups != [] {
      var init := groups[..|groups| - 1];
      UnionMembers(init);
      assert forall i :: 0 <= i < |init| ==> init[i] == groups[i];
    }
  }

  /** Group `i` holds exactly the tasks that are ready once the earlier groups are done, and is not empty. */
  ghost predicate LayerAt(g: map<string, set<string>>, tasks: map<string, SchedulableTask>, groups: seq<set<string>>, i: int)
    requires 0 <= i < |groups|
  {
    groups[i] != {} && forall t :: t in groups[i] <==> IsReady(g, tasks, Union(groups[..i]), t)
  }

  /** Each group is the next layer. */
  ghost predicate Layers(g: map<string, set<string>>, tasks: map<string, SchedulableTask>, groups: seq<set<string>>) {
    forall i :: 0 <= i < |groups| ==> LayerAt(g, tasks, groups, i)
  }

  /** What `get_parallel_groups` returns: each group is the next layer, and after the last no task is ready. */
  ghost predicate Layered(g: map<string, set<string>>, tasks: map<string, SchedulableTask>, groups: seq<set<string>>) {
    && Layers(g, tasks, groups)
    && (forall t :: !IsReady(g, tasks, Union(groups), t))
  }

  /** Appending the set of tasks ready after the groups so far adds one more layer. */
  lemma LayerStep(g: map<string, set<string>>, tasks: map<string, SchedulableTask>, groups: seq<set<string>>,
                  ready: set<string>)
    requires Layers(g, tasks, groups)
    requires ready != {} && forall t :: t in ready <==> IsReady(g, tasks, Union(groups), t)
    ensures Layers(g, tasks, groups + [ready])
    ensures Union(groups + [ready]) == Union(groups) + ready
  {
    var groups' := groups + [ready];
    assert groups'[..|groups|] == groups;
    forall i | 0 <= i < |groups'| ensures LayerAt(g, tasks, groups', i) {
      if i < |groups| {
        assert LayerAt(g, tasks, groups, i);
        assert groups'[..i] == groups[..i];
      }
    }
  }

  /** The groups are disjoint and hold only stored tasks. */
  lemma LayersDisjoint(g: map<string, set<string>>, tasks: map<string, SchedulableTask>, groups: seq<set<string>>)
    requires Layered(g, tasks, groups)
    ensures forall i, j :: 0 <= i < j < |groups| ==> groups[i] * groups[j] == {}
    ensures Union(groups) <= tasks.Keys
  {
    forall i, j | 0 <= i < j < |groups| ensures groups[i] * groups[j] == {} {
      assert LayerAt(g, tasks, groups, j);
      UnionMembers(groups[..j]);
      assert groups[..j][i] == groups[i];
    }
    UnionMembers(groups);
    forall t | t in Union(groups) ensures t in tasks {
      var i :| 0 <= i < |groups| && t in groups[i];
      assert LayerAt(g, tasks, groups, i);
    }
  }

  /** Every dependency of a task in a group lies in an earlier group. */
  lemma LayersDepsEarlier(g: map<string, set<string>>, tasks: map<string, SchedulableTask>, groups: seq<set<string>>)
    requires Layered(g, tasks, groups)
    ensures forall i, t, d :: 0 <= i < |groups| && t in groups[i] && d in Succ(g, t) ==>
              exists j :: 0 <= j < i && d in groups[j]
  {
    forall i, t, d | 0 <= i < |groups| && t in groups[i] && d in Succ(g, t)
      ensures exists j :: 0 <= j < i && d in groups[j]
    {
      assert LayerAt(g, tasks, groups, i);
      UnionMembers(groups[..i]);
      var j :| 0 <= j < i && d in groups[..i][j];
      assert groups[..i][j] == groups[j];
    }
  }

  /** Without a cycle, and with every dependency a stored task, every task lands in some group. */
  lemma LayersComplete(g: map<string, set<string>>, tasks: map<string, SchedulableTask>, groups: seq<set<string>>)
    requires Layered(g, tasks, groups)
    requires !Cyclic(g)
    requires forall t :: t in tasks ==> Succ(g, t) <= tasks.Keys
    ensures Union(groups) == tasks.Keys
  {
    LayersDisjoint(g, tasks, groups);
    var u := tasks.Keys - Union(groups);
    if u != {} {
      forall x | x in u ensures Succ(g, x) * u != {} {
        assert !IsReady(g, tasks, Union(groups), x);
        var y :| y in Succ(g, x) && y !in Union(groups);
        assert y in Succ(g, x) * u;
      }
      CycleInClosedSet(g, u);
    } else {
      forall t | t in tasks ensures t in Union(groups) {
        assert t !in u;
      }
    }
  }

  /** The layering loop of `get_parallel_groups`, over the graph and the stored tasks. */
  method ParallelGroups(g: map<string, set<string>>, tasks: map<string, SchedulableTask>) returns (groups: seq<set<string>>)
    ensures Layered(g, tasks, groups)
  {
    groups := [];
    var done: set<string> := {};
    var remaining := tasks.Keys;
    while remaining != {}
      invariant done == Union(groups) && remaining == tasks.Keys - done
      invariant Layers(g, tasks, groups)
      decreases |remaining|
    {
      var ready := ReadyAmong(g, remaining, done);
      if ready == {} {
        break;
      }
      LayerStep(g, tasks, groups, ready);
      groups := groups + [ready];
      done := done + ready;
      remaining := remaining - ready;
      assert remaining == tasks.Keys - done;
    }
  }

  /** Two layers-so-far agree on their common prefix: each group is forced by the ones before it. */
  lemma {:induction false} LayersAgree(g: map<string, set<string>>, tasks: map<string, SchedulableTask>,
                                      a: seq<set<string>>, b: seq<set<string>>, n: nat)
    requires Layers(g, tasks, a) && Layers(g, tasks, b) && n <= |a| && n <= |b|
    ensures a[..n] == b[..n]
    decreases n
  {
    if n > 0 {
      LayersAgree(g, tasks, a, b, n - 1);
      assert LayerAt(g, tasks, a, n - 1) && LayerAt(g, tasks, b, n - 1);
      assert a[n - 1] == b[n - 1];
      assert a[..n] == a[..n - 1] + [a[n - 1]] && b[..n] == b[..n - 1] + [b[n - 1]];
    }
  }

  /** `get_parallel_groups` has one possible answer: the layering is unique. */
  lemma LayeredUnique(g: map<string, set<string>>, tasks: map<string, SchedulableTask>,
                      a: seq<set<string>>, b: seq<set<string>>)
    requires Layered(g, tasks, a) && Layered(g, tasks, b)
    ensures a == b
  {
    LayeredLongest(g, tasks, a, b);
    LayeredLongest(g, tasks, b, a);
    LayersAgree(g, tasks, a, b, |a|);
    assert a == a[..|a|] && b == b[..|b|];
  }

  /** No layering-so-far is longer than a complete one. */
  lemma LayeredLongest(g: map<string, set<string>>, tasks: map<string, SchedulableTask>,
                       a: seq<set<string>>, b: seq<set<string>>)
    requires Layered(g, tasks, a) && Layers(g, tasks, b)
    ensures |b| <= |a|
  {
    if |a| < |b| {
      LayersAgree(g, tasks, a, b, |a|);
      assert a[..|a|] == a;
      LayerReady(g, tasks, b, |a|);
      assert false;
    }
  }

  /** Some task is ready once the groups before a layer are done: the layer itself is not empty. */
  lemma LayerReady(g: map<string, set<string>>, tasks: map<string, SchedulableTask>, groups: seq<set<string>>, i: int)
    requires Layers(g, tasks, groups) && 0 <= i < |groups|
    ensures exists t :: IsReady(g, tasks, Union(groups[..i]), t)
  {
    assert LayerAt(g, tasks, groups, i);
    var t :| t in groups[i];
  }

  /** Counts of the stored tasks in a status, as `get_statistics` reports them. */
  function CountStatus(tasks: map<string, SchedulableTask>, ids: seq<string>, status: TaskStatus): (n: nat)
    requires forall k :: k in ids ==> k in tasks
    ensures n <= |ids|
  {
    if ids == [] then 0
    else CountStatus(tasks, ids[..|ids| - 1], status) + (if tasks[ids[|ids| - 1]].status == status then 1 else 0)
  }

  /** A task has one status, so the completed, failed and pending counts add up to at most the total. */
  lemma {:induction false} CountStatusSum(tasks: map<string, SchedulableTask>, ids: seq<string>)
    requires forall k :: k in ids ==> k in tasks
    ensures CountStatus(tasks, ids, Completed) + CountStatus(tasks, ids, Failed) + CountStatus(tasks, ids, Pending) <= |ids|
    decreases |ids|
  {
    if ids != [] {
      CountStatusSum(tasks, ids[..|ids| - 1]);
    }
  }

  /** The counts `get_statistics` reports; durations and the critical path are not modelled. */
  datatype Statistics = Statistics(totalTasks: int, completed: int, failed: int, pending: int, parallelGroups: int)

  /** `get_critical_path` recurses without end on a cycle, so `get_statistics` raises. */
  datatype StatsError = RecursionError

  // ---------------------------------------------------------------------------
  // The scheduler
  // ---------------------------------------------------------------------------

  class TaskScheduler {
    const maxConcurrent: int
    const graph: DependencyGraph
    var completed: set<string>
    var running: set<string>
    var history: seq<HistoryEntry>

    ghost predicate Valid()
      reads this, graph
    {
      graph.Valid()
    }

    /** Every task marked running is stored with status running. */
    ghost predicate RunningConsistent()
      reads this, graph
    {
      forall id :: id in running ==> id in graph.tasks && graph.tasks[id].status == Running
    }

    constructor (maxConcurrent: int)
      ensures Valid() && fresh(graph)
      ensures this.maxConcurrent == maxConcurrent
      ensures graph.tasks == map[] && graph.graph == map[]
      ensures completed == {} && running == {} && history == []
    {
      this.maxConcurrent := maxConcurrent;
      graph := new DependencyGraph();
      completed, running, history := {}, {}, [];
    }

    /** `add_task`. */
    method AddTask(task: SchedulableTask)
      requires Valid()
      modifies graph
      ensures Valid()
      ensures graph.tasks == old(graph.tasks)[task.taskId := task]
      ensures forall t :: Succ(graph.graph, t)
                == Succ(old(graph.graph), t) + (if t == task.taskId then Elems(task.dependencies) else {})
    {
      graph.AddTask(task);
    }

    /** `add_tasks`: adds each task in turn. */
    method AddTasks(ts: seq<SchedulableTask>)
      requires Valid()
      modifies graph
      ensures Valid()
      ensures graph.tasks == StoreAll(old(graph.tasks), ts)
    {
      var i := 0;
      while i < |ts|
        invariant 0 <= i <= |ts|
        invariant Valid()
        invariant graph.tasks == StoreAll(old(graph.tasks), ts[..i])
      {
        assert ts[..i + 1][..i] == ts[..i];
        AddTask(ts[i]);
        i := i + 1;
      }
      assert ts[..i] == ts;
    }

    /** `get_ready_tasks`: the ready list cut to the free slots, empty when none is free. */
    method GetReadyTasks() returns (ready: seq<SchedulableTask>)
      requires Valid()
      ensures var slots := maxConcurrent - |running|;
              var all := ReadyTasks(graph.graph, graph.tasks, graph.order, completed);
              && (slots <= 0 ==> ready == [])
              && (slots > 0 ==> ready == all[..if slots < |all| then slots else |all|])
              && |ready| <= if slots <= 0 then 0 else slots
    {
      var slots := maxConcurrent - |running|;
      if slots <= 0 {
        return [];
      }
      var all := graph.GetReadyTasks(completed);
      ready := all[..if slots < |all| then slots else |all|];
    }

    /** `mark_running`. */
    method MarkRunning(taskId: string)
      requires Valid() && taskId in graph.tasks
      modifies this, graph
      ensures Valid()
      ensures graph.tasks == old(graph.tasks)[taskId := old(graph.tasks)[taskId].(status := Running)]
      ensures running == old(running) + {taskId}
      ensures completed == old(completed) && history == old(history)
      ensures old(RunningConsistent()) ==> RunningConsistent()
    {
      graph.SetTask(graph.tasks[taskId].(status := Running));
      running := running + {taskId};
    }

    /** `mark_completed`: the task leaves the running set and joins the completed set. */
    method MarkCompleted(taskId: string)
      requires Valid() && taskId in graph.tasks
      modifies this, graph
      ensures Valid()
      ensures graph.tasks == old(graph.tasks)[taskId := old(graph.tasks)[taskId].(status := Completed)]
      ensures running == old(running) - {taskId} && completed == old(completed) + {taskId}
      ensures history == old(history) + [Finished(taskId)]
      ensures old(RunningConsistent()) ==> RunningConsistent()
    {
      graph.SetTask(graph.tasks[taskId].(status := Completed));
      running := running - {taskId};
      completed := completed + {taskId};
      history := history + [Finished(taskId)];
    }

    /**
     * `mark_failed`: records the error and one more retry; the task goes back
     * to pending while retries remain and is failed (and logged) otherwise.
     * It leaves the running set either way.
     */
    method MarkFailed(taskId: string, error: string)
      requires Valid() && taskId in graph.tasks
      modifies this, graph
      ensures Valid()
      ensures graph.tasks == old(graph.tasks)[taskId := AfterFailure(old(graph.tasks)[taskId], error)]
      ensures running == old(running) - {taskId} && completed == old(completed)
      ensures var t := AfterFailure(old(graph.tasks)[taskId], error);
              history == old(history) + if t.status == Failed then [GaveUp(taskId, error, t.retries)] else []
      ensures old(RunningConsistent()) ==> RunningConsistent()
    {
      var task := graph.tasks[taskId];
      task := task.(error := Some(error), retries := task.retries + 1);
      if task.retries < task.maxRetries {
        task := task.(status := Pending);
        running := running - {taskId};
      } else {
        task := task.(status := Failed);
        running := running - {taskId};
        history := history + [GaveUp(taskId, error, task.retries)];
      }
      graph.SetTask(task);
    }

    /** `get_execution_order`. */
    method GetExecutionOrder() returns (r: Result<seq<string>, SortError>)
      requires Valid()
      ensures r.Err? <==> Cyclic(graph.graph)
      ensures r.Ok? ==> KahnOrder(graph.graph, graph.tasks, r.value)
    {
      r := graph.TopologicalSort();
    }

    /**
     * `get_parallel_groups`: repeatedly takes every remaining task whose
     * dependencies are all in earlier groups, stopping when none is left or
     * none is ready (a cycle or an unknown dependency).
     */
    method GetParallelGroups() returns (groups: seq<set<string>>)
      requires Valid()
      ensures Layered(graph.graph, graph.tasks, groups)
    {
      groups := ParallelGroups(graph.graph, graph.tasks);
    }

    /**
     * `get_statistics`, without the durations and the length of the critical
     * path. The critical path's memoised search only records a task once its
     * dependencies have returned, so on a dependency cycle it recurses until
     * Python raises `RecursionError`.
     */
    method GetStatistics() returns (r: Result<Statistics, StatsError>)
      requires Valid()
      ensures r.Err? <==> Cyclic(graph.graph)
      ensures r.Ok? ==> var s := r.value;
                        && s.totalTasks == |graph.tasks|
                        && s.completed == CountStatus(graph.tasks, graph.order, Completed)
                        && s.failed == CountStatus(graph.tasks, graph.order, Failed)
                        && s.pending == CountStatus(graph.tasks, graph.order, Pending)
                        && s.completed + s.failed + s.pending <= s.totalTasks
                        && forall groups :: Layered(graph.graph, graph.tasks, groups) ==> s.parallelGroups == |groups|
    {
      var groups := GetParallelGroups();
      var cyclic := graph.HasCycle();
      if cyclic {
        return Err(RecursionError);
      }
      CountStatusSum(graph.tasks, graph.order);
      DistinctCard(graph.order);
      assert Elems(graph.order) == graph.tasks.Keys;
      forall other | Layered(graph.graph, graph.tasks, other) ensures |groups| == |other| {
        LayeredUnique(graph.graph, graph.tasks, groups, other);
      }
      r := Ok(Statistics(|graph.tasks|, CountStatus(graph.tasks, graph.order, Completed),
                         CountStatus(graph.tasks, graph.order, Failed), CountStatus(graph.tasks, graph.order, Pending),
                         |groups|));
    }

    /** `reset`: forgets the running and completed sets and resets every task. */
    method Reset()
      requires Valid()
      modifies this, graph
      ensures Valid()
      ensures completed == {} && running == {} && history == old(history)
      ensures graph.tasks == map k | k in old(graph.tasks) :: ResetTask(old(graph.tasks)[k])
      ensures graph.graph == old(graph.graph)
      ensures RunningConsistent()
    {
      completed, running := {}, {};
      var i := 0;
      while i < |graph.order|
        invariant 0 <= i <= |graph.order|
        invariant completed == {} && running == {} && history == old(history)
        invariant Valid() && graph.order == old(graph.order) && graph.graph == old(graph.graph)
        invariant graph.tasks.Keys == old(graph.tasks).Keys
        invariant forall k :: k in graph.tasks ==>
                    graph.tasks[k] == if k in graph.order[..i] then ResetTask(old(graph.tasks)[k]) else old(graph.tasks)[k]
      {
        var id := graph.order[i];
        assert graph.order[..i + 1] == graph.order[..i] + [id];
        graph.SetTask(ResetTask(graph.tasks[id]));
        i := i + 1;
      }
      assert graph.order[..i] == graph.order;
    }
  }

  /** The inner loop of `get_parallel_groups`: the remaining tasks whose dependencies are all done. */
  method ReadyAmong(g: map<string, set<string>>, remaining: set<string>, done: set<string>) returns (ready: set<string>)
    ensures forall t :: t in ready <==> t in remaining && Succ(g, t) <= done
  {
    ready := {};
    var todo := remaining;
    while todo != {}
      invariant todo <= remaining
      invariant forall t :: t in ready <==> t in remaining - todo && Succ(g, t) <= done
      decreases todo
    {
      var t :| t in todo;
      if Succ(g, t) <= done {
        ready := ready + {t};
      }
      todo := todo - {t};
    }
  }

  /** `PriorityScheduler`: a task scheduler that also records priority adjustments. */
  /** The stored tasks after each pending one of `deps` has its priority raised by `boost`, clamped to 1..10. */
  function Boosted(tasks: map<string, SchedulableTask>, deps: set<string>, boost: int): map<string, SchedulableTask> {
    map k | k in tasks :: if k in deps && tasks[k].status == Pending then tasks[k].(priority := Clamp(tasks[k].priority + boost)) else tasks[k]
  }

  /** The adjustments recorded for the pending ones of `deps`. */
  function BoostRecords(tasks: map<string, SchedulableTask>, deps: set<string>, boost: int): map<string, int> {
    map k | k in deps && k in tasks && tasks[k].status == Pending :: boost
  }

  /**
   * Boosting keeps the stored ids and changes nothing but priorities; it
   * touches only pending tasks of `deps`; and a non-negative boost never
   * lowers a priority in 1..10.
   */
  lemma BoostedChanges(tasks: map<string, SchedulableTask>, deps: set<string>, boost: int)
    ensures Boosted(tasks, deps, boost).Keys == tasks.Keys
    ensures forall k :: k in tasks ==> Boosted(tasks, deps, boost)[k] == tasks[k].(priority := Boosted(tasks, deps, boost)[k].priority)
    ensures forall k :: k in tasks && (k !in deps || tasks[k].status != Pending) ==> Boosted(tasks, deps, boost)[k] == tasks[k]
    ensures forall k :: k in tasks && boost >= 0 && 1 <= tasks[k].priority <= 10 ==> Boosted(tasks, deps, boost)[k].priority >= tasks[k].priority
  {
  }

  /** What `boost_blocked_dependencies` does to the tasks for one dependency `d`. */
  function BoostStep(tasks: map<string, SchedulableTask>, d: string, boost: int): map<string, SchedulableTask> {
    if d in tasks && tasks[d].status == Pending then tasks[d := tasks[d].(priority := Clamp(tasks[d].priority + boost))] else tasks
  }

  /** What it records for one dependency `d`. */
  function RecordStep(tasks: map<string, SchedulableTask>, adjustments: map<string, int>, d: string, boost: int): map<string, int> {
    if d in tasks && tasks[d].status == Pending then adjustments[d := boost] else adjustments
  }

  /** Boosting one more dependency is one more step. */
  lemma BoostedSnoc(tasks: map<string, SchedulableTask>, adjustments: map<string, int>, done: set<string>, d: string, boost: int)
    requires d !in done
    ensures Boosted(tasks, done + {d}, boost) == BoostStep(Boosted(tasks, done, boost), d, boost)
    ensures adjustments + BoostRecords(tasks, done + {d}, boost)
              == RecordStep(Boosted(tasks, done, boost), adjustments + BoostRecords(tasks, done, boost), d, boost)
  {
    BoostedTasksSnoc(tasks, done, d, boost);
    BoostedRecordsSnoc(tasks, adjustments, done, d, boost);
  }

  lemma BoostedTasksSnoc(tasks: map<string, SchedulableTask>, done: set<string>, d: string, boost: int)
    requires d !in done
    ensures Boosted(tasks, done + {d}, boost) == BoostStep(Boosted(tasks, done, boost), d, boost)
  {
  }

  lemma BoostedRecordsSnoc(tasks: map<string, SchedulableTask>, adjustments: map<string, int>, done: set<string>, d: string, boost: int)
    requires d !in done
    ensures adjustments + BoostRecords(tasks, done + {d}, boost)
              == RecordStep(Boosted(tasks, done, boost), adjustments + BoostRecords(tasks, done, boost), d, boost)
  {
    var now := Boosted(tasks, done, boost);
    assert d in now <==> d in tasks;
    assert d in now ==> now[d].status == tasks[d].status;
  }

  class PriorityScheduler {
    const scheduler: TaskScheduler
    var adjustments: map<string, int>

    ghost predicate Valid()
      reads this, scheduler, scheduler.graph
    {
      scheduler.Valid()
    }

    constructor (maxConcurrent: int)
      ensures Valid() && fresh(scheduler) && fresh(scheduler.graph)
      ensures scheduler.maxConcurrent == maxConcurrent && adjustments == map[]
    {
      scheduler := new TaskScheduler(maxConcurrent);
      adjustments := map[];
    }

    /**
     * `adjust_priority`: for a stored task, adds `adjustment` to its priority,
     * clamped to 1..10, and records the adjustment; an unknown id changes nothing.
     */
    method AdjustPriority(taskId: string, adjustment: int)
      requires Valid()
      modifies this, scheduler.graph
      ensures Valid()
      ensures var tasks := old(scheduler.graph.tasks);
              taskId in tasks ==>
                && scheduler.graph.tasks == tasks[taskId := tasks[taskId].(priority := Clamp(tasks[taskId].priority + adjustment))]
                && adjustments == old(adjustments)[taskId := adjustment]
      ensures taskId !in old(scheduler.graph.tasks) ==>
                scheduler.graph.tasks == old(scheduler.graph.tasks) && adjustments == old(adjustments)
      ensures scheduler.graph.graph == old(scheduler.graph.graph)
    {
      if taskId in scheduler.graph.tasks {
        var task := scheduler.graph.tasks[taskId];
        var p := if 10 < task.priority + adjustment then 10 else task.priority + adjustment;
        p := if 1 > p then 1 else p;
        scheduler.graph.SetTask(task.(priority := p));
        adjustments := adjustments[taskId := adjustment];
      }
    }

    /** One round of `boost_blocked_dependencies`: a stored, pending task is adjusted by `boost`. */
    method BoostOne(d: string, boost: int)
      requires Valid()
      modifies this, scheduler.graph
      ensures Valid()
      ensures scheduler.graph.tasks == BoostStep(old(scheduler.graph.tasks), d, boost)
      ensures adjustments == RecordStep(old(scheduler.graph.tasks), old(adjustments), d, boost)
      ensures scheduler.graph.graph == old(scheduler.graph.graph)
    {
      if d in scheduler.graph.tasks && scheduler.graph.tasks[d].status == Pending {
        AdjustPriority(d, boost);
      }
    }

    /**
     * `boost_blocked_dependencies`: raises the priority of every stored,
     * pending dependency of the task by `boost`, clamped to 1..10, and records
     * the adjustment; every other task, the links and the other recorded
     * adjustments stay as they were.
     */
    method BoostBlockedDependencies(taskId: string, boost: int)
      requires Valid()
      modifies this, scheduler.graph
      ensures Valid()
      ensures var deps := Succ(old(scheduler.graph.graph), taskId);
              && scheduler.graph.tasks == Boosted(old(scheduler.graph.tasks), deps, boost)
              && adjustments == old(adjustments) + BoostRecords(old(scheduler.graph.tasks), deps, boost)
      ensures scheduler.graph.graph == old(scheduler.graph.graph)
    {
      var deps := scheduler.graph.GetDependencies(taskId);
      ghost var tasks0 := scheduler.graph.tasks;
      ghost var adjustments0 := adjustments;
      var todo := deps;
      while todo != {}
        invariant Valid() && todo <= deps
        invariant scheduler.graph.graph == old(scheduler.graph.graph)
        invariant scheduler.graph.tasks == Boosted(tasks0, deps - todo, boost)
        invariant adjustments == adjustments0 + BoostRecords(tasks0, deps - todo, boost)
        decreases todo
      {
        var d :| d in todo;
        BoostedSnoc(tasks0, adjustments0, deps - todo, d, boost);
        BoostOne(d, boost);
        assert deps - (todo - {d}) == (deps - todo) + {d};
        todo := todo - {d};
      }
      assert deps - todo == deps;
    }
  }
}

/**
 * The in-process metric containers of the research agent's monitoring module:
 * labelled counters and gauges, a histogram with a percentile query, a
 * performance tracker that keeps a sliding window of latencies, and an alert
 * manager that evaluates textual threshold rules against a metrics snapshot.
 *
 * Floats are modelled as reals. Python's `float(text)` is a parameter
 * `parse` of the alert evaluation: it returns None where Python raises
 * ValueError.
 */
module Metrics {
  import opened Wrappers
  import Text

  // ---------------------------------------------------------------------
  // Label keys
  // ---------------------------------------------------------------------

  /** The key a value is stored under: for each configured label name, the given value or "". */
  function LabelKey(names: seq<string>, labels: map<string, string>): seq<string> {
    seq(|names|, i requires 0 <= i < |names| => if names[i] in labels then labels[names[i]] else "")
  }

  /** Labels that are not configured do not affect the key; absent ones read as "". */
  lemma LabelKeyAgree(names: seq<string>, a: map<string, string>, b: map<string, string>)
    requires forall n :: n in names ==> (n in a <==> n in b) && (n in a ==> a[n] == b[n])
    ensures LabelKey(names, a) == LabelKey(names, b)
  {
    forall i | 0 <= i < |names| ensures LabelKey(names, a)[i] == LabelKey(names, b)[i] {
      assert names[i] in names;
    }
  }

  /** `values.get(key, 0)`. */
  function Lookup(values: map<seq<string>, real>, key: seq<string>): real {
    if key in values then values[key] else 0.0
  }

  /** The table after `values[key] = values.get(key, 0) + v`. */
  function Added(values: map<seq<string>, real>, key: seq<string>, v: real): map<seq<string>, real> {
    values[key := Lookup(values, key) + v]
  }

  /** Adding under one key raises that key's lookup by `v` and leaves every other key's lookup alone. */
  lemma AddedLookup(values: map<seq<string>, real>, key: seq<string>, v: real, other: seq<string>)
    ensures Lookup(Added(values, key, v), other) == Lookup(values, other) + (if other == key then v else 0.0)
    ensures key in Added(values, key, v)
  {
  }

  // ---------------------------------------------------------------------
  // Counter and Gauge
  // ---------------------------------------------------------------------

  class Counter {
    const name: string
    const description: string
    const labelNames: seq<string>
    var values: map<seq<string>, real>

    constructor(name: string, description: string, labelNames: seq<string>)
      ensures this.name == name && this.description == description && this.labelNames == labelNames
      ensures values == map[]
    {
      this.name := name;
      this.description := description;
      this.labelNames := labelNames;
      values := map[];
    }

    /** `get(**labels)`: the accumulated value, 0 for labels never incremented. */
    function Get(labels: map<string, string>): (r: real)
      reads this
      ensures LabelKey(labelNames, labels) in values ==> r == values[LabelKey(labelNames, labels)]
      ensures LabelKey(labelNames, labels) !in values ==> r == 0.0
    {
      Lookup(values, LabelKey(labelNames, labels))
    }

    /** `inc(value, **labels)`: adds `value` to the entry of the label tuple. */
    method Inc(value: real, labels: map<string, string>)
      modifies this
      ensures values == Added(old(values), LabelKey(labelNames, labels), value)
      ensures forall other :: (Get(other) == old(Get(other))
        + (if LabelKey(labelNames, other) == LabelKey(labelNames, labels) then value else 0.0))
    {
      var key := LabelKey(labelNames, labels);
      values := values[key := Lookup(values, key) + value];
      forall other ensures Get(other) == old(Get(other))
        + (if LabelKey(labelNames, other) == key then value else 0.0)
      {
        AddedLookup(old(values), key, value, LabelKey(labelNames, other));
      }
    }
  }

  class Gauge {
    const name: string
    const description: string
    const labelNames: seq<string>
    var values: map<seq<string>, real>

    constructor(name: string, description: string, labelNames: seq<string>)
      ensures this.name == name && this.description == description && this.labelNames == labelNames
      ensures values == map[]
    {
      this.name := name;
      this.description := description;
      this.labelNames := labelNames;
      values := map[];
    }

    /** `get(**labels)`: the last value set for the label tuple, 0 if none. */
    function Get(labels: map<string, string>): (r: real)
      reads this
      ensures LabelKey(labelNames, labels) in values ==> r == values[LabelKey(labelNames, labels)]
      ensures LabelKey(labelNames, labels) !in values ==> r == 0.0
    {
      Lookup(values, LabelKey(labelNames, labels))
    }

    /** `set(value, **labels)`: overwrites the entry of the label tuple. */
    method Set(value: real, labels: map<string, string>)
      modifies this
      ensures values == old(values)[LabelKey(labelNames, labels) := value]
      ensures Get(labels) == value
      ensures forall other :: LabelKey(labelNames, other) != LabelKey(labelNames, labels) ==> Get(other) == old(Get(other))
    {
      values := values[LabelKey(labelNames, labels) := value];
    }
  }

  // ---------------------------------------------------------------------
  // Histogram
  // ---------------------------------------------------------------------

  ghost predicate Ascending(s: seq<real>) {
    forall i, j :: 0 <= i < j < |s| ==> s[i] <= s[j]
  }

  /** Inserts `x` into an ascending sequence. */
  function Insert(x: real, s: seq<real>): (r: seq<real>)
    ensures |r| == |s| + 1
    ensures multiset(r) == multiset(s) + multiset{x}
  {
    if s == [] then [x]
    else if x <= s[0] then [x] + s
    else
      assert s == [s[0]] + s[1..];
      [s[0]] + Insert(x, s[1..])
  }

  lemma {:induction false} InsertAscending(x: real, s: seq<real>)
    requires Ascending(s)
    ensures Ascending(Insert(x, s))
    decreases |s|
  {
    if s != [] {
      if x <= s[0] {
        forall j | 0 <= j < |s| ensures x <= s[j] {
          if j > 0 { assert s[0] <= s[j]; }
        }
        PrependAscending(x, s);
      } else {
        forall i, j | 0 <= i < j < |s[1..]| ensures s[1..][i] <= s[1..][j] {
          assert s[1..][i] == s[i + 1] && s[1..][j] == s[j + 1];
        }
        InsertAscending(x, s[1..]);
        forall j | 0 <= j < |s[1..]| ensures s[0] <= s[1..][j] {
          assert s[1..][j] == s[j + 1];
        }
        InsertBounded(x, s[1..], s[0]);
        PrependAscending(s[0], Insert(x, s[1..]));
      }
    }
  }

  /** A lower bound of an ascending sequence can go in front of it. */
  lemma PrependAscending(y: real, t: seq<real>)
    requires Ascending(t)
    requires forall j :: 0 <= j < |t| ==> y <= t[j]
    ensures Ascending([y] + t)
  {
    var r := [y] + t;
    forall i, j | 0 <= i < j < |r| ensures r[i] <= r[j] {
      assert r[j] == t[j - 1];
      if i > 0 { assert r[i] == t[i - 1]; }
    }
  }


  /** Inserting a value no smaller than a lower bound keeps every element above that bound. */
  lemma {:induction false} InsertBounded(x: real, s: seq<real>, b: real)
    requires b <= x
    requires forall j :: 0 <= j < |s| ==> b <= s[j]
    ensures forall j :: 0 <= j < |Insert(x, s)| ==> b <= Insert(x, s)[j]
    decreases |s|
  {
    if s != [] && x > s[0] {
      var t := Insert(x, s[1..]);
      forall j | 0 <= j < |s[1..]| ensures b <= s[1..][j] {
        assert s[1..][j] == s[j + 1];
      }
      InsertBounded(x, s[1..], b);
      var r := [s[0]] + t;
      forall j | 0 <= j < |r| ensures b <= r[j] {
        if j > 0 { assert r[j] == t[j - 1]; }
      }
    }
  }

  /** `sorted(xs)`: an ascending permutation of `xs`. */
  function Sort(xs: seq<real>): (r: seq<real>)
    ensures |r| == |xs|
    ensures multiset(r) == multiset(xs)
    ensures Ascending(r)
  {
    if xs == [] then []
    else
      assert xs == [xs[0]] + xs[1..];
      InsertAscending(xs[0], Sort(xs[1..]));
      Insert(xs[0], Sort(xs[1..]))
  }

  /** Number of elements strictly below `t`. */
  function Below(s: seq<real>, t: real): nat {
    if s == [] then 0 else (if s[0] < t then 1 else 0) + Below(s[1..], t)
  }

  /** Number of elements at most `t`. */
  function AtMost(s: seq<real>, t: real): nat {
    if s == [] then 0 else (if s[0] <= t then 1 else 0) + AtMost(s[1..], t)
  }

  lemma {:induction false} InsertCounts(x: real, s: seq<real>, t: real)
    ensures Below(Insert(x, s), t) == Below(s, t) + (if x < t then 1 else 0)
    ensures AtMost(Insert(x, s), t) == AtMost(s, t) + (if x <= t then 1 else 0)
    decreases |s|
  {
    if s != [] && x > s[0] {
      InsertCounts(x, s[1..], t);
      var r := Insert(x, s);
      assert r[0] == s[0] && r[1..] == Insert(x, s[1..]);
    }
  }

  /** Sorting changes no count, so ranks may be read off the sorted sequence. */
  lemma {:induction false} SortCounts(xs: seq<real>, t: real)
    ensures Below(Sort(xs), t) == Below(xs, t)
    ensures AtMost(Sort(xs), t) == AtMost(xs, t)
    decreases |xs|
  {
    if xs != [] {
      SortCounts(xs[1..], t);
      InsertCounts(xs[0], Sort(xs[1..]), t);
    }
  }

  lemma {:induction false} BelowBound(s: seq<real>, t: real, i: nat)
    requires i <= |s|
    requires forall j :: i <= j < |s| ==> t <= s[j]
    ensures Below(s, t) <= i
    decreases |s|
  {
    if s != [] {
      if i == 0 {
        assert t <= s[0];
        BelowBound(s[1..], t, 0);
      } else {
        BelowBound(s[1..], t, i - 1);
      }
    }
  }

  lemma {:induction false} AtMostBound(s: seq<real>, t: real, i: nat)
    requires i < |s|
    requires forall j :: 0 <= j <= i ==> s[j] <= t
    ensures AtMost(s, t) >= i + 1
    decreases |s|
  {
    assert s[0] <= t;
    if i > 0 {
      AtMostBound(s[1..], t, i - 1);
    }
  }

  /** Python's `int(x)` on a float: truncation toward zero. */
  function Truncate(x: real): (n: int)
    ensures x >= 0.0 ==> n as real <= x < n as real + 1.0
    ensures x < 0.0 ==> n as real - 1.0 < x <= n as real
  {
    if x >= 0.0 then x.Floor else -((-x).Floor)
  }

  lemma TruncateMonotone(x: real, y: real)
    requires 0.0 <= x <= y
    ensures Truncate(x) <= Truncate(y)
  {
    var a, b := Truncate(x), Truncate(y);
    assert a as real < b as real + 1.0;
  }

  /** The list index `percentile` reads: `min(int(n * p), n - 1)`. */
  function RankIndex(n: nat, p: real): int {
    Capped(n, Truncate(n as real * p))
  }

  /** `min(idx, n - 1)`. */
  function Capped(n: nat, idx: int): int {
    if idx < n - 1 then idx else n - 1
  }

  lemma RankIndexBounds(n: nat, p: real)
    requires n > 0 && p >= 0.0
    ensures 0 <= RankIndex(n, p) < n
  {
    var x := n as real * p;
    assert 0.0 <= x;
    assert Truncate(x) as real > x - 1.0;
  }

  /**
   * `percentile` on the observations of one label tuple: 0.0 when there are
   * none; otherwise the sorted observations at `RankIndex`, where a negative
   * index counts from the end as Python's does, and one below `-n` raises
   * IndexError (an `Err` here).
   */
  function PercentileOf(obs: seq<real>, p: real): (r: Result<real, string>)
    ensures obs == [] ==> r == Ok(0.0)
    ensures r.Ok? && obs != [] ==> r.value in obs
    ensures p >= 0.0 ==> r.Ok?
  {
    if obs == [] then Ok(0.0)
    else
      var sorted := Sort(obs);
      var i := RankIndex(|obs|, p);
      if 0 <= i then
        assert sorted[i] in multiset(obs);
        Ok(sorted[i])
      else if -|obs| <= i then
        assert sorted[|obs| + i] in multiset(obs);
        Ok(sorted[|obs| + i])
      else Err("IndexError: list index out of range")
  }

  /** In an ascending sequence the element at index `i` has rank `i`. */
  lemma SortedRank(sorted: seq<real>, i: nat)
    requires Ascending(sorted) && i < |sorted|
    ensures Below(sorted, sorted[i]) <= i
    ensures AtMost(sorted, sorted[i]) >= i + 1
  {
    var v := sorted[i];
    forall j | i <= j < |sorted| ensures v <= sorted[j] {
      if i < j { assert sorted[i] <= sorted[j]; }
    }
    BelowBound(sorted, v, i);
    forall j | 0 <= j <= i ensures sorted[j] <= v {
      if j < i { assert sorted[j] <= sorted[i]; }
    }
    AtMostBound(sorted, v, i);
  }

  /**
   * For a non-negative `p` the percentile is the observation of rank
   * `RankIndex(n, p)` (counting from 0): at most that many observations lie
   * strictly below it and more than that many lie at or below it.
   */
  lemma PercentileRank(obs: seq<real>, p: real)
    requires obs != [] && p >= 0.0
    ensures 0 <= RankIndex(|obs|, p) < |obs|
    ensures Below(obs, PercentileOf(obs, p).value) <= RankIndex(|obs|, p)
    ensures AtMost(obs, PercentileOf(obs, p).value) >= RankIndex(|obs|, p) + 1
  {
    var sorted := Sort(obs);
    var i := RankIndex(|obs|, p);
    RankIndexBounds(|obs|, p);
    assert PercentileOf(obs, p) == Ok(sorted[i]);
    SortedRank(sorted, i);
    SortCounts(obs, sorted[i]);
  }

  /** A larger non-negative `p` never gives a smaller percentile. */
  lemma PercentileMonotone(obs: seq<real>, p: real, q: real)
    requires 0.0 <= p <= q
    ensures PercentileOf(obs, p).value <= PercentileOf(obs, q).value
  {
    if obs != [] {
      var i, j := RankIndex(|obs|, p), RankIndex(|obs|, q);
      RankIndexMonotone(|obs|, p, q);
      var sorted := Sort(obs);
      assert PercentileOf(obs, p) == Ok(sorted[i]);
      assert PercentileOf(obs, q) == Ok(sorted[j]);
      if i < j { assert sorted[i] <= sorted[j]; }
    }
  }

  lemma RankIndexMonotone(n: nat, p: real, q: real)
    requires n > 0 && 0.0 <= p <= q
    ensures 0 <= RankIndex(n, p) <= RankIndex(n, q) < n
  {
    TruncatedOrder(n, p, q);
    CappedMonotone(n, Truncate(n as real * p), Truncate(n as real * q));
  }

  lemma TruncatedOrder(n: nat, p: real, q: real)
    requires 0.0 <= p <= q
    ensures 0 <= Truncate(n as real * p) <= Truncate(n as real * q)
  {
    ScaledOrder(n as real, p, q);
    TruncateMonotone(n as real * p, n as real * q);
  }

  lemma CappedMonotone(n: nat, a: int, b: int)
    requires n > 0 && 0 <= a <= b
    ensures 0 <= Capped(n, a) <= Capped(n, b) < n
  {
  }

  lemma ScaledOrder(m: real, p: real, q: real)
    requires 0.0 <= m && 0.0 <= p <= q
    ensures 0.0 <= m * p <= m * q
  {
    assert m * q - m * p == m * (q - p);
  }

  /** The observations recorded for a label tuple, `[]` when there are none. */
  function Observed(observations: map<seq<string>, seq<real>>, key: seq<string>): seq<real> {
    if key in observations then observations[key] else []
  }

  class Histogram {
    const name: string
    const description: string
    const labelNames: seq<string>
    const buckets: seq<real>
    var observations: map<seq<string>, seq<real>>

    /** `buckets or [0.1, 0.5, 1.0, 2.0, 5.0, 10.0]`. */
    constructor(name: string, description: string, labelNames: seq<string>, buckets: seq<real>)
      ensures this.name == name && this.description == description && this.labelNames == labelNames
      ensures this.buckets == if buckets == [] then [0.1, 0.5, 1.0, 2.0, 5.0, 10.0] else buckets
      ensures observations == map[]
    {
      this.name := name;
      this.description := description;
      this.labelNames := labelNames;
      this.buckets := if buckets == [] then [0.1, 0.5, 1.0, 2.0, 5.0, 10.0] else buckets;
      observations := map[];
    }

    /** `observe(value, **labels)`: appends to the list of the label tuple, creating it if needed. */
    method Observe(value: real, labels: map<string, string>)
      modifies this
      ensures observations == old(observations)[LabelKey(labelNames, labels) :=
        Observed(old(observations), LabelKey(labelNames, labels)) + [value]]
    {
      var key := LabelKey(labelNames, labels);
      if key !in observations {
        observations := observations[key := []];
      }
      observations := observations[key := observations[key] + [value]];
    }

    /** `percentile(p, **labels)`. */
    function Percentile(p: real, labels: map<string, string>): (r: Result<real, string>)
      reads this
      ensures Observed(observations, LabelKey(labelNames, labels)) == [] ==> r == Ok(0.0)
      ensures r.Ok? && Observed(observations, LabelKey(labelNames, labels)) != [] ==>
                r.value in Observed(observations, LabelKey(labelNames, labels))
      ensures p >= 0.0 ==> r.Ok?
    {
      PercentileOf(Observed(observations, LabelKey(labelNames, labels)), p)
    }
  }

  // ---------------------------------------------------------------------
  // PerformanceTracker
  // ---------------------------------------------------------------------

  /** Append `x`, then drop the oldest entry if the list outgrew `size` (`append` then `pop(0)`). */
  function Slide(window: seq<real>, x: real, size: int): seq<real> {
    var w := window + [x];
    if |w| > size then w[1..] else w
  }

  /** The newest `size` entries of `history` (none when `size` is not positive). */
  function Newest(history: seq<real>, size: int): (r: seq<real>)
    ensures |r| <= |history| && (size >= 0 ==> |r| <= size)
    ensures r == history[|history| - |r|..]
  {
    var k := if size <= 0 then 0 else if |history| < size then |history| else size;
    history[|history| - k..]
  }

  /** Sliding the newest window over a new entry gives the newest window of the longer history. */
  lemma SlideNewest(history: seq<real>, x: real, size: int)
    ensures Slide(Newest(history, size), x, size) == Newest(history + [x], size)
  {
    var h := history + [x];
    var w := Newest(history, size) + [x];
    assert w == h[|h| - |w|..];
    if |w| > size {
      assert w[1..] == h[|h| - |w| + 1..];
    }
  }

  class PerformanceTracker {
    const windowSize: int
    var latencies: seq<real>
    var throughputs: seq<real>
    var errors: int
    var totalRequests: int
    /** Every latency ever recorded, oldest first. */
    ghost var history: seq<real>

    /** The window holds exactly the newest latencies, and the counters match the history. */
    ghost predicate Valid()
      reads this
    {
      latencies == Newest(history, windowSize)
      && |throughputs| <= (if windowSize < 0 then 0 else windowSize)
      && totalRequests == |history|
      && 0 <= errors <= totalRequests
    }

    constructor(windowSize: int)
      ensures this.windowSize == windowSize
      ensures latencies == [] && throughputs == [] && errors == 0 && totalRequests == 0
      ensures Valid()
    {
      this.windowSize := windowSize;
      latencies := [];
      throughputs := [];
      errors := 0;
      totalRequests := 0;
      history := [];
    }

    /** `record(latency_ms, tokens, success)`. */
    method Record(latencyMs: real, tokens: int, success: bool)
      requires Valid()
      modifies this
      ensures Valid()
      ensures history == old(history) + [latencyMs]
      ensures latencies == Slide(old(latencies), latencyMs, windowSize)
      ensures throughputs == if latencyMs > 0.0 && tokens > 0
        then Slide(old(throughputs), tokens as real / (latencyMs / 1000.0), windowSize)
        else old(throughputs)
      ensures totalRequests == old(totalRequests) + 1
      ensures errors == old(errors) + (if success then 0 else 1)
    {
      SlideNewest(history, latencyMs, windowSize);
      latencies := latencies + [latencyMs];
      if |latencies| > windowSize {
        latencies := latencies[1..];
      }
      if latencyMs > 0.0 && tokens > 0 {
        var throughput := tokens as real / (latencyMs / 1000.0);
        throughputs := throughputs + [throughput];
        if |throughputs| > windowSize {
          throughputs := throughputs[1..];
        }
      }
      totalRequests := totalRequests + 1;
      if !success {
        errors := errors + 1;
      }
      history := history + [latencyMs];
    }
  }

  // ---------------------------------------------------------------------
  // AlertManager
  // ---------------------------------------------------------------------

  datatype AlertRule = AlertRule(name: string, condition: string, severity: string, message: string)

  const DefaultRules: seq<AlertRule> := [
    AlertRule("high_latency", "latency_p99 > 5000", "warning", "P99 延遲超過 5 秒"),
    AlertRule("critical_latency", "latency_p99 > 10000", "critical", "P99 延遲超過 10 秒"),
    AlertRule("high_error_rate", "error_rate > 0.05", "warning", "錯誤率超過 5%"),
    AlertRule("gpu_memory_high", "gpu_memory_percent > 0.95", "warning", "GPU 顯存使用率超過 95%")
  ]

  /** What evaluating one rule does: skip it, raise on its threshold, or find it fired or quiet. */
  datatype Verdict = Skip | Malformed | Fire | Quiet

  /** The four comparison operators; any other operator never triggers. */
  function Compare(op: string, value: real, threshold: real): bool {
    if op == ">" then value > threshold
    else if op == "<" then value < threshold
    else if op == ">=" then value >= threshold
    else if op == "<=" then value <= threshold
    else false
  }

  function Judge(rule: AlertRule, metrics: map<string, real>, parse: string -> Option<real>): (v: Verdict)
    ensures v == Skip <==> |Text.SplitWhitespace(rule.condition)| != 3
  {
    var parts := Text.SplitWhitespace(rule.condition);
    if |parts| != 3 then Skip
    else match parse(parts[2])
      case None => Malformed
      case Some(threshold) =>
        var value := if parts[0] in metrics then metrics[parts[0]] else 0.0;
        if Compare(parts[1], value, threshold) then Fire else Quiet
  }

  /** The effect of one verdict on the active alerts. */
  function Apply(active: map<string, AlertRule>, rule: AlertRule, v: Verdict): map<string, AlertRule> {
    if v == Fire then active[rule.name := rule]
    else if v == Quiet then active - {rule.name}
    else active
  }

  /** The active alerts after evaluating `rules` in order. */
  function After(active: map<string, AlertRule>, rules: seq<AlertRule>, metrics: map<string, real>,
                 parse: string -> Option<real>): map<string, AlertRule>
    decreases |rules|
  {
    if rules == [] then active
    else
      var last := rules[|rules| - 1];
      Apply(After(active, rules[..|rules| - 1], metrics, parse), last, Judge(last, metrics, parse))
  }

  /** The rules that fire, in rule order. */
  function Fired(rules: seq<AlertRule>, metrics: map<string, real>, parse: string -> Option<real>): seq<AlertRule>
    decreases |rules|
  {
    if rules == [] then []
    else
      var last := rules[|rules| - 1];
      Fired(rules[..|rules| - 1], metrics, parse) + (if Judge(last, metrics, parse) == Fire then [last] else [])
  }

  /** Exactly the rules whose verdict is Fire are reported. */
  lemma {:induction false} FiredIff(rules: seq<AlertRule>, metrics: map<string, real>, parse: string -> Option<real>, x: AlertRule)
    ensures x in Fired(rules, metrics, parse) <==> x in rules && Judge(x, metrics, parse) == Fire
    decreases |rules|
  {
    if rules != [] {
      var front := rules[..|rules| - 1];
      FiredIff(front, metrics, parse, x);
      assert rules == front + [rules[|rules| - 1]];
    }
  }

  /** A rule that does not parse, after well-formed ones, is the first malformed rule. */
  lemma MalformedStops(rules: seq<AlertRule>, i: nat, metrics: map<string, real>, parse: string -> Option<real>)
    requires i <= FirstMalformed(rules, metrics, parse)
    requires i < |rules| && Judge(rules[i], metrics, parse) == Malformed
    ensures FirstMalformed(rules, metrics, parse) == i
  {
  }

  /** One more evaluated rule moves the loop state of `evaluate` from prefix `i` to prefix `i + 1`. */
  /** The state of the loop of `evaluate` after the first `i` rules. */
  ghost predicate Evaluated(active0: map<string, AlertRule>, rules: seq<AlertRule>, i: nat, metrics: map<string, real>,
                            parse: string -> Option<real>, triggered: seq<AlertRule>, active: map<string, AlertRule>)
  {
    && i <= |rules| && i <= FirstMalformed(rules, metrics, parse)
    && active == After(active0, rules[..i], metrics, parse) && FiledUnder(active, rules)
    && triggered == Fired(rules[..i], metrics, parse)
  }

  /** A malformed threshold at `i` ends the loop with the alerts as the rules before it left them. */
  lemma MalformedExit(active0: map<string, AlertRule>, rules: seq<AlertRule>, i: nat, metrics: map<string, real>,
                      parse: string -> Option<real>, triggered: seq<AlertRule>, active: map<string, AlertRule>)
    requires Evaluated(active0, rules, i, metrics, parse, triggered, active)
    requires i < |rules| && Judge(rules[i], metrics, parse) == Malformed
    ensures FirstMalformed(rules, metrics, parse) == i && i != |rules|
    ensures active == After(active0, rules[..FirstMalformed(rules, metrics, parse)], metrics, parse)
    ensures FiledUnder(active, rules)
  {
    MalformedStops(rules, i, metrics, parse);
  }

  /** After the last rule the loop has produced the fired rules. */
  lemma CompleteExit(active0: map<string, AlertRule>, rules: seq<AlertRule>, metrics: map<string, real>,
                     parse: string -> Option<real>, triggered: seq<AlertRule>, active: map<string, AlertRule>)
    requires Evaluated(active0, rules, |rules|, metrics, parse, triggered, active)
    ensures FirstMalformed(rules, metrics, parse) == |rules|
    ensures triggered == Fired(rules, metrics, parse)
    ensures active == After(active0, rules[..FirstMalformed(rules, metrics, parse)], metrics, parse)
    ensures FiledUnder(active, rules)
  {
    assert rules[..|rules|] == rules;
  }

  lemma EvaluateAdvance(active0: map<string, AlertRule>, rules: seq<AlertRule>, i: nat, metrics: map<string, real>,
                        parse: string -> Option<real>, active: map<string, AlertRule>, active': map<string, AlertRule>,
                        triggered: seq<AlertRule>, triggered': seq<AlertRule>)
    requires i < |rules| && Evaluated(active0, rules, i, metrics, parse, triggered, active)
    requires Judge(rules[i], metrics, parse) != Malformed
    requires active' == Apply(active, rules[i], Judge(rules[i], metrics, parse))
    requires triggered' == if Judge(rules[i], metrics, parse) == Fire then triggered + [rules[i]] else triggered
    ensures Evaluated(active0, rules, i + 1, metrics, parse, triggered', active')
  {
    var v := Judge(rules[i], metrics, parse);
    NotYetMalformed(rules, i, metrics, parse);
    EvaluateStep(active0, rules, i, metrics, parse);
    ApplyFiled(active, rules, rules[i], v);
  }

  /** Evaluating one more rule applies its verdict to the alerts and the fired list. */
  /** A rule that is not malformed moves the first malformed rule, if any, beyond it. */
  lemma NotYetMalformed(rules: seq<AlertRule>, i: nat, metrics: map<string, real>, parse: string -> Option<real>)
    requires i < |rules| && i <= FirstMalformed(rules, metrics, parse)
    requires Judge(rules[i], metrics, parse) != Malformed
    ensures i + 1 <= FirstMalformed(rules, metrics, parse)
  {
  }

  lemma EvaluateStep(active: map<string, AlertRule>, rules: seq<AlertRule>, i: nat, metrics: map<string, real>,
                     parse: string -> Option<real>)
    requires i < |rules|
    ensures After(active, rules[..i + 1], metrics, parse)
      == Apply(After(active, rules[..i], metrics, parse), rules[i], Judge(rules[i], metrics, parse))
    ensures Fired(rules[..i + 1], metrics, parse)
      == Fired(rules[..i], metrics, parse) + (if Judge(rules[i], metrics, parse) == Fire then [rules[i]] else [])
  {
    assert rules[..i + 1][..i] == rules[..i];
  }

  /** Index of the first rule whose threshold does not parse, or `|rules|`. */
  function FirstMalformed(rules: seq<AlertRule>, metrics: map<string, real>, parse: string -> Option<real>): (k: nat)
    ensures k <= |rules|
    ensures forall j :: 0 <= j < k ==> Judge(rules[j], metrics, parse) != Malformed
    ensures k < |rules| ==> Judge(rules[k], metrics, parse) == Malformed
    decreases |rules|
  {
    if rules == [] then 0
    else if Judge(rules[0], metrics, parse) == Malformed then 0
    else 1 + FirstMalformed(rules[1..], metrics, parse)
  }

  /**
   * A name whose last fired-or-quiet rule is `rules[k]` is active afterwards
   * exactly when that rule fired, and then it maps to that rule.
   */
  lemma {:induction false} ActiveLast(active: map<string, AlertRule>, rules: seq<AlertRule>, metrics: map<string, real>,
                                      parse: string -> Option<real>, k: nat)
    requires k < |rules|
    requires Judge(rules[k], metrics, parse) in {Fire, Quiet}
    requires forall j :: k < j < |rules| && rules[j].name == rules[k].name ==> Judge(rules[j], metrics, parse) in {Skip, Malformed}
    ensures rules[k].name in After(active, rules, metrics, parse) <==> Judge(rules[k], metrics, parse) == Fire
    ensures rules[k].name in After(active, rules, metrics, parse) ==> After(active, rules, metrics, parse)[rules[k].name] == rules[k]
    decreases |rules|
  {
    if k < |rules| - 1 {
      var front := rules[..|rules| - 1];
      ActiveLast(active, front, metrics, parse, k);
    }
  }

  /** A name with no fired-or-quiet rule keeps its entry unchanged. */
  lemma {:induction false} ActiveUntouched(active: map<string, AlertRule>, rules: seq<AlertRule>, metrics: map<string, real>,
                                           parse: string -> Option<real>, n: string)
    requires forall j :: 0 <= j < |rules| && rules[j].name == n ==> Judge(rules[j], metrics, parse) in {Skip, Malformed}
    ensures n in After(active, rules, metrics, parse) <==> n in active
    ensures n in active ==> After(active, rules, metrics, parse)[n] == active[n]
    decreases |rules|
  {
    if rules != [] {
      ActiveUntouched(active, rules[..|rules| - 1], metrics, parse, n);
    }
  }

  /**
   * When every rule has a well-formed condition and the rule names are
   * distinct, the active alerts after an evaluation are exactly the rules
   * that fired in it (alerts of earlier evaluations are cleared or renewed).
   */
  lemma ActiveMatchesFired(active: map<string, AlertRule>, rules: seq<AlertRule>, metrics: map<string, real>,
                           parse: string -> Option<real>)
    requires forall n :: n in active ==> exists j :: 0 <= j < |rules| && rules[j].name == n
    requires forall j :: 0 <= j < |rules| ==> Judge(rules[j], metrics, parse) in {Fire, Quiet}
    requires forall i, j :: 0 <= i < j < |rules| ==> rules[i].name != rules[j].name
    ensures forall x :: x in After(active, rules, metrics, parse).Values <==> x in Fired(rules, metrics, parse)
  {
    var after := After(active, rules, metrics, parse);
    forall x ensures x in after.Values <==> x in Fired(rules, metrics, parse) {
      FiredIff(rules, metrics, parse, x);
      if x in after.Values {
        var n :| n in after && after[n] == x;
        if j :| 0 <= j < |rules| && rules[j].name == n {
          ActiveLast(active, rules, metrics, parse, j);
        } else {
          ActiveUntouched(active, rules, metrics, parse, n);
        }
      }
      if x in Fired(rules, metrics, parse) {
        var j :| 0 <= j < |rules| && rules[j] == x;
        ActiveLast(active, rules, metrics, parse, j);
      }
    }
  }

  /** Every active alert is filed under its own name and is one of the rules. */
  ghost predicate FiledUnder(active: map<string, AlertRule>, rules: seq<AlertRule>) {
    forall n :: n in active ==> active[n].name == n && active[n] in rules
  }

  lemma ApplyFiled(active: map<string, AlertRule>, rules: seq<AlertRule>, rule: AlertRule, v: Verdict)
    requires FiledUnder(active, rules) && rule in rules
    ensures FiledUnder(Apply(active, rule, v), rules)
  {
  }

  class AlertManager {
    const rules: seq<AlertRule>
    var activeAlerts: map<string, AlertRule>

    ghost predicate Valid()
      reads this
    {
      FiledUnder(activeAlerts, rules)
    }

    /** `rules or DEFAULT_RULES`: an empty list selects the default rules. */
    constructor(rules: seq<AlertRule>)
      ensures this.rules == if rules == [] then DefaultRules else rules
      ensures activeAlerts == map[]
      ensures Valid()
    {
      this.rules := if rules == [] then DefaultRules else rules;
      activeAlerts := map[];
    }

    /**
     * `evaluate(metrics)`: the rules that fire, in order. A threshold that
     * does not parse raises, leaving the alerts updated by the rules before it.
     */
    method Evaluate(metrics: map<string, real>, parse: string -> Option<real>) returns (r: Result<seq<AlertRule>, string>)
      requires Valid()
      modifies this
      ensures Valid()
      ensures r.Ok? <==> FirstMalformed(rules, metrics, parse) == |rules|
      ensures r.Ok? ==> r.value == Fired(rules, metrics, parse)
      ensures activeAlerts == After(old(activeAlerts), rules[..FirstMalformed(rules, metrics, parse)], metrics, parse)
    {
      ghost var active0 := activeAlerts;
      var triggered := [];
      var i := 0;
      assert rules[..0] == [];
      while i < |rules|
        invariant Evaluated(active0, rules, i, metrics, parse, triggered, activeAlerts)
      {
        var malformed;
        malformed, triggered := EvaluateNext(active0, i, metrics, parse, triggered);
        if malformed {
          r := Err("ValueError: could not convert string to float");
          return;
        }
        i := i + 1;
      }
      CompleteExit(active0, rules, metrics, parse, triggered, activeAlerts);
      r := Ok(triggered);
    }

    /** One turn of the loop of `evaluate`: rule `i` is judged, and either ends the loop or extends the state. */
    method EvaluateNext(ghost active0: map<string, AlertRule>, i: nat, metrics: map<string, real>,
                        parse: string -> Option<real>, triggered: seq<AlertRule>)
      returns (malformed: bool, triggered': seq<AlertRule>)
      requires i < |rules| && Evaluated(active0, rules, i, metrics, parse, triggered, activeAlerts)
      modifies this
      ensures malformed ==> (FirstMalformed(rules, metrics, parse) == i && FiledUnder(activeAlerts, rules)
                             && activeAlerts == After(active0, rules[..i], metrics, parse))
      ensures !malformed ==> Evaluated(active0, rules, i + 1, metrics, parse, triggered', activeAlerts)
    {
      var rule := rules[i];
      ghost var before := activeAlerts;
      var v := EvaluateRule(rule, metrics, parse);
      if v == Malformed {
        MalformedExit(active0, rules, i, metrics, parse, triggered, before);
        return true, triggered;
      }
      triggered' := if v == Fire then triggered + [rule] else triggered;
      EvaluateAdvance(active0, rules, i, metrics, parse, before, activeAlerts, triggered, triggered');
      malformed := false;
    }

    /** One pass of the loop body of `evaluate`: the verdict on `rule` and its effect on the alerts. */
    method EvaluateRule(rule: AlertRule, metrics: map<string, real>, parse: string -> Option<real>) returns (v: Verdict)
      modifies this
      ensures v == Judge(rule, metrics, parse)
      ensures activeAlerts == Apply(old(activeAlerts), rule, v)
    {
      var parts := Text.SplitWhitespace(rule.condition);
      if |parts| != 3 {
        return Skip;
      }
      var threshold := parse(parts[2]);
      if threshold.None? {
        return Malformed;
      }
      var value := if parts[0] in metrics then metrics[parts[0]] else 0.0;
      var isTriggered := Compare(parts[1], value, threshold.value);
      if isTriggered {
        activeAlerts := activeAlerts[rule.name := rule];
        v := Fire;
      } else {
        if rule.name in activeAlerts {
          activeAlerts := activeAlerts - {rule.name};
        }
        v := Quiet;
      }
    }

    /** `get_active_alerts()`: the active alert rules (insertion order is not modelled). */
    function ActiveAlerts(): (alerts: set<AlertRule>)
      reads this
      ensures Valid() ==> forall x :: x in alerts ==> x in rules
    {
      activeAlerts.Values
    }
  }
}

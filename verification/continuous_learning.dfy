/**
 * The in-memory logic of the continuous-learning pipeline
 * (chapter-13/continuous_learning.py): when to retrain, training pairs from
 * clicks, the model registry's version states with promotion and rollback,
 * and the canary rollout's traffic percentage.
 *
 * Clock readings are parameters, counted in seconds; metrics are reals.
 */
module Learning {
  import opened Wrappers

  // ----------------------------------------------------------------------
  // Retraining trigger
  // ----------------------------------------------------------------------

  datatype TriggerType = Scheduled | PerformanceDegradation | DataDrift | FeedbackVolume | Manual

  /** The trigger thresholds (`TriggerCondition`). */
  datatype TriggerCondition = TriggerCondition(
    scheduleIntervalDays: int,
    performanceThreshold: real,
    performanceMetric: string,
    minFeedbackCount: int,
    driftThreshold: real)

  const DefaultCondition := TriggerCondition(7, 0.05, "recall@5", 1000, 0.1)

  const SecondsPerDay := 86400

  /** A `RetrainingTrigger`: its thresholds, when it last trained, and the baseline metrics. */
  datatype Trigger = Trigger(config: TriggerCondition, lastTrainingTime: Option<int>, baselineMetrics: map<string, real>)

  /** `d.get(key, 0)`. */
  function Get(d: map<string, real>, key: string): real {
    if key in d then d[key] else 0.0
  }

  /** `timedelta.days` of the time from `earlier` to `later`: whole days, rounded down. */
  function DaysBetween(earlier: int, later: int): int {
    (later - earlier) / SecondsPerDay  // the divisor is positive, so this is floor division
  }

  /** `check_scheduled_trigger` at time `now`. */
  predicate ScheduledDue(t: Trigger, now: int) {
    t.lastTrainingTime.Some? && DaysBetween(t.lastTrainingTime.value, now) >= t.config.scheduleIntervalDays
  }

  /** The schedule fires exactly when at least the interval, in whole days of seconds, has passed. */
  lemma ScheduledDueIff(t: Trigger, now: int)
    ensures ScheduledDue(t, now) <==>
              t.lastTrainingTime.Some? && now - t.lastTrainingTime.value >= t.config.scheduleIntervalDays * SecondsPerDay
  {
    if t.lastTrainingTime.Some? {
      var d := now - t.lastTrainingTime.value;
      var k := t.config.scheduleIntervalDays;
      var q := d / SecondsPerDay;
      assert d == q * SecondsPerDay + d % SecondsPerDay && 0 <= d % SecondsPerDay < SecondsPerDay;
      if q >= k {
        MulMonotone(k, q, SecondsPerDay);
      } else {
        MulMonotone(q + 1, k, SecondsPerDay);
      }
    }
  }

  lemma MulMonotone(a: int, b: int, c: nat)
    requires a <= b
    ensures a * c <= b * c
  {
  }

  /** `check_performance_trigger(current)`. */
  predicate PerformanceDropped(t: Trigger, current: map<string, real>) {
    if |t.baselineMetrics| == 0 then false
    else
      var baseline := Get(t.baselineMetrics, t.config.performanceMetric);
      var now := Get(current, t.config.performanceMetric);
      baseline > 0.0 && (baseline - now) / baseline >= t.config.performanceThreshold
  }

  /**
   * The performance trigger never fires without baseline metrics or with a
   * baseline of at most 0; otherwise it fires exactly when the metric fell
   * to at most `(1 - threshold)` times its baseline.
   */
  lemma PerformanceDroppedIff(t: Trigger, current: map<string, real>)
    ensures PerformanceDropped(t, current) <==>
              && |t.baselineMetrics| != 0
              && Get(t.baselineMetrics, t.config.performanceMetric) > 0.0
              && Get(current, t.config.performanceMetric)
                 <= Get(t.baselineMetrics, t.config.performanceMetric) * (1.0 - t.config.performanceThreshold)
  {
    var b := Get(t.baselineMetrics, t.config.performanceMetric);
    var c := Get(current, t.config.performanceMetric);
    var th := t.config.performanceThreshold;
    if b > 0.0 {
      var q := (b - c) / b;
      assert q * b == b - c;
      if q >= th {
        assert q * b >= th * b;
      } else {
        assert q * b < th * b;
      }
    }
  }

  /** `check_feedback_volume_trigger(n)`. */
  predicate FeedbackEnough(t: Trigger, newFeedbackCount: int) {
    newFeedbackCount >= t.config.minFeedbackCount
  }

  /**
   * The feedback-volume trigger fires from `min_feedback_count` on, the bound
   * itself included, and more feedback never switches it off again.
   */
  lemma FeedbackThreshold(t: Trigger, count: int, more: int)
    ensures FeedbackEnough(t, t.config.minFeedbackCount)
    ensures !FeedbackEnough(t, t.config.minFeedbackCount - 1)
    ensures FeedbackEnough(t, count) && count <= more ==> FeedbackEnough(t, more)
  {
  }

  /**
   * `should_retrain`: the first trigger that fires, in the order performance,
   * feedback volume, schedule; `(false, None)` when none does.
   */
  function ShouldRetrain(t: Trigger, current: map<string, real>, newFeedbackCount: int, now: int): (r: (bool, Option<TriggerType>))
    ensures r.0 <==> r.1.Some?
    ensures r.0 <==> PerformanceDropped(t, current) || FeedbackEnough(t, newFeedbackCount) || ScheduledDue(t, now)
    ensures r.1 == Some(PerformanceDegradation) <==> PerformanceDropped(t, current)
    ensures r.1 == Some(FeedbackVolume) <==> !PerformanceDropped(t, current) && FeedbackEnough(t, newFeedbackCount)
    ensures r.1 == Some(Scheduled) <==>
              !PerformanceDropped(t, current) && !FeedbackEnough(t, newFeedbackCount) && ScheduledDue(t, now)
  {
    if PerformanceDropped(t, current) then (true, Some(PerformanceDegradation))
    else if FeedbackEnough(t, newFeedbackCount) then (true, Some(FeedbackVolume))
    else if ScheduledDue(t, now) then (true, Some(Scheduled))
    else (false, None)
  }

  // ----------------------------------------------------------------------
  // Training pairs from clicks
  // ----------------------------------------------------------------------

  datatype TrainingPair = TrainingPair(query: string, positiveDoc: string, negativeDocs: seq<string>, source: string)

  /** One click record: the query, the document clicked, and the documents shown. */
  datatype Click = Click(query: string, clickedDoc: string, shownDocs: seq<string>)

  /** `[d for d in shown if d != clicked]`: every other shown document, as often as it was shown. */
  function Unclicked(shown: seq<string>, clicked: string): (r: seq<string>)
    ensures |r| <= |shown|
    ensures multiset(r)[clicked] == 0
    ensures forall d :: d != clicked ==> multiset(r)[d] == multiset(shown)[d]
  {
    if shown == [] then []
    else
      var rest := Unclicked(shown[..|shown| - 1], clicked);
      assert shown == shown[..|shown| - 1] + [shown[|shown| - 1]];
      if shown[|shown| - 1] != clicked then rest + [shown[|shown| - 1]] else rest
  }

  /** Python's `s[:n]`: a negative `n` counts from the end. */
  function Prefix(s: seq<string>, n: int): (r: seq<string>)
    ensures n >= 0 ==> |r| == if n < |s| then n else |s|
    ensures n < 0 ==> |r| == if |s| + n > 0 then |s| + n else 0
    ensures r == s[..|r|]
  {
    if n >= 0 then (if n < |s| then s[..n] else s)
    else if |s| + n > 0 then s[..|s| + n] else []
  }

  /** The pair `prepare_from_clicks` makes of one click. */
  function ClickPair(click: Click, maxNegatives: int): TrainingPair {
    TrainingPair(click.query, click.clickedDoc, Prefix(Unclicked(click.shownDocs, click.clickedDoc), maxNegatives), "click")
  }

  /**
   * `prepare_from_clicks`: one pair per click, in order; the clicked document
   * is the positive, and the negatives are other shown documents, at most
   * `maxNegatives` of them.
   */
  method PrepareFromClicks(clicks: seq<Click>, maxNegatives: int) returns (pairs: seq<TrainingPair>)
    ensures |pairs| == |clicks|
    ensures forall i :: 0 <= i < |pairs| ==> pairs[i] == ClickPair(clicks[i], maxNegatives)
    ensures forall i :: 0 <= i < |pairs| ==>
              && pairs[i].positiveDoc == clicks[i].clickedDoc && pairs[i].source == "click"
              && clicks[i].clickedDoc !in pairs[i].negativeDocs
              && (forall d :: d in pairs[i].negativeDocs ==> d in clicks[i].shownDocs)
              && (maxNegatives >= 0 ==> |pairs[i].negativeDocs| <= maxNegatives)
  {
    pairs := [];
    for k := 0 to |clicks|
      invariant |pairs| == k
      invariant forall i :: 0 <= i < k ==> pairs[i] == ClickPair(clicks[i], maxNegatives)
    {
      pairs := pairs + [ClickPair(clicks[k], maxNegatives)];
    }
    forall i | 0 <= i < |pairs|
      ensures clicks[i].clickedDoc !in pairs[i].negativeDocs
      ensures forall d :: d in pairs[i].negativeDocs ==> d in clicks[i].shownDocs
    {
      NegativesShown(clicks[i], maxNegatives);
    }
  }

  /** The negatives of a click pair are shown documents other than the clicked one. */
  lemma NegativesShown(click: Click, maxNegatives: int)
    ensures click.clickedDoc !in ClickPair(click, maxNegatives).negativeDocs
    ensures forall d :: d in ClickPair(click, maxNegatives).negativeDocs ==> d in click.shownDocs
  {
    var all := Unclicked(click.shownDocs, click.clickedDoc);
    var r := ClickPair(click, maxNegatives).negativeDocs;
    assert all == r + all[|r|..];
    forall d | d in r ensures d != click.clickedDoc && d in click.shownDocs {
      assert multiset(all)[d] > 0;
    }
  }

  // ----------------------------------------------------------------------
  // Model registry
  // ----------------------------------------------------------------------

  const CANDIDATE := "candidate"
  const PRODUCTION := "production"
  const ARCHIVED := "archived"

  /** A `ModelVersion` record; `createdAt` is a clock reading in seconds. */
  datatype ModelVersion = ModelVersion(
    versionId: string,
    modelPath: string,
    createdAt: int,
    metrics: map<string, real>,
    status: string,
    triggerType: Option<TriggerType>,
    trainingSamples: int)

  /** `str(n)`: the decimal digits of `n`. */
  function Decimal(n: nat): (s: string)
    ensures s != [] && forall i :: 0 <= i < |s| ==> '0' <= s[i] <= '9'
    decreases n
  {
    var d := [('0' as int + n % 10) as char];
    if n < 10 then d else Decimal(n / 10) + d
  }

  /** The number a string of decimal digits denotes. */
  function DigitsValue(s: string): nat
    requires forall i :: 0 <= i < |s| ==> '0' <= s[i] <= '9'
  {
    if s == [] then 0 else 10 * DigitsValue(s[..|s| - 1]) + (s[|s| - 1] as int - '0' as int)
  }

  /** Reading the digits back gives the number. */
  lemma {:induction false} DecimalValue(n: nat)
    ensures DigitsValue(Decimal(n)) == n
    decreases n
  {
    if n >= 10 {
      var s := Decimal(n);
      assert s[..|s| - 1] == Decimal(n / 10);
      DecimalValue(n / 10);
    }
  }

  /** The version id `register` gives the `n`-th version. */
  function VersionId(n: nat): string {
    "v" + Decimal(n)
  }

  /** Different version numbers give different ids. */
  lemma VersionIdInjective(m: nat, n: nat)
    requires VersionId(m) == VersionId(n)
    ensures m == n
  {
    assert Decimal(m) == VersionId(m)[1..] == VersionId(n)[1..] == Decimal(n);
    DecimalValue(m);
    DecimalValue(n);
  }

  /** Version `i` (from 0) carries the id `v{i+1}`, as when every version came from `register`. */
  ghost predicate Numbered(vs: seq<ModelVersion>) {
    forall i :: 0 <= i < |vs| ==> vs[i].versionId == VersionId(i + 1)
  }

  /** Numbered versions have distinct ids. */
  lemma NumberedDistinct(vs: seq<ModelVersion>)
    requires Numbered(vs)
    ensures forall i, j :: 0 <= i < j < |vs| ==> vs[i].versionId != vs[j].versionId
  {
    forall i, j | 0 <= i < j < |vs| ensures vs[i].versionId != vs[j].versionId {
      if vs[i].versionId == vs[j].versionId {
        VersionIdInjective(i + 1, j + 1);
      }
    }
  }

  /** At most one version is in production. */
  ghost predicate SingleProduction(vs: seq<ModelVersion>) {
    forall i, j :: 0 <= i < |vs| && 0 <= j < |vs| && vs[i].status == PRODUCTION && vs[j].status == PRODUCTION ==> i == j
  }

  /** A production version gets status `to`; any other stays as it is. */
  function Demote(v: ModelVersion, to: string): ModelVersion {
    if v.status == PRODUCTION then v.(status := to) else v
  }

  /** Every production version demoted to `to`, then version `t` in production. */
  function Promoted(vs: seq<ModelVersion>, t: nat, to: string): seq<ModelVersion>
    requires t < |vs|
  {
    seq(|vs|, i requires 0 <= i < |vs| => if i == t then vs[i].(status := PRODUCTION) else Demote(vs[i], to))
  }

  /**
   * After a promotion exactly version `t` is in production, the former
   * production versions carry status `to`, every other status is unchanged,
   * and nothing but statuses changes.
   */
  lemma PromotedShape(vs: seq<ModelVersion>, t: nat, to: string)
    requires t < |vs| && to != PRODUCTION
    ensures var r := Promoted(vs, t, to);
            && |r| == |vs| && SingleProduction(r) && r[t].status == PRODUCTION
            && (forall i :: 0 <= i < |r| && i != t && vs[i].status == PRODUCTION ==> r[i].status == to)
            && (forall i :: 0 <= i < |r| && i != t && vs[i].status != PRODUCTION ==> r[i] == vs[i])
            && (forall i :: 0 <= i < |r| ==> r[i].(status := vs[i].status) == vs[i])
  {
  }

  /** The index of the first version with id `id`. */
  function FindId(vs: seq<ModelVersion>, id: string): (r: Option<nat>)
    ensures r.Some? ==> r.value < |vs| && vs[r.value].versionId == id
    ensures forall j :: 0 <= j < |vs| && (r.None? || j < r.value) ==> vs[j].versionId != id
  {
    if vs == [] then None
    else if vs[0].versionId == id then Some(0)
    else
      var r := FindId(vs[1..], id);
      if r.Some? then Some(r.value + 1) else None
  }

  /** The index of the first production version. */
  function FindProduction(vs: seq<ModelVersion>): (r: Option<nat>)
    ensures r.Some? ==> r.value < |vs| && vs[r.value].status == PRODUCTION
    ensures forall j :: 0 <= j < |vs| && (r.None? || j < r.value) ==> vs[j].status != PRODUCTION
  {
    if vs == [] then None
    else if vs[0].status == PRODUCTION then Some(0)
    else
      var r := FindProduction(vs[1..]);
      if r.Some? then Some(r.value + 1) else None
  }

  /**
   * What `rollback` picks: the first of the archived versions created last,
   * the head of the archived versions sorted newest first by a stable sort.
   */
  function NewestArchived(vs: seq<ModelVersion>): (r: Option<nat>)
    ensures r.Some? ==> r.value < |vs| && vs[r.value].status == ARCHIVED
    ensures r.Some? ==> forall j :: 0 <= j < |vs| && vs[j].status == ARCHIVED ==>
                          vs[j].createdAt <= vs[r.value].createdAt && (j < r.value ==> vs[j].createdAt < vs[r.value].createdAt)
    ensures r.None? ==> forall j :: 0 <= j < |vs| ==> vs[j].status != ARCHIVED
  {
    if vs == [] then None
    else
      var last := |vs| - 1;
      var best := NewestArchived(vs[..last]);
      if vs[last].status == ARCHIVED && (best.None? || vs[best.value].createdAt < vs[last].createdAt) then Some(last)
      else best
  }

  class ModelRegistry {
    var versions: seq<ModelVersion>

    /** A registry holding the versions read from its file. */
    constructor (loaded: seq<ModelVersion>)
      ensures versions == loaded
    {
      versions := loaded;
    }

    /** `register`: a new candidate `v{n+1}` at the end; numbered versions stay numbered. */
    method Register(modelPath: string, metrics: map<string, real>, triggerType: TriggerType,
                    trainingSamples: int, now: int) returns (v: ModelVersion)
      modifies this
      ensures v == ModelVersion(VersionId(|old(versions)| + 1), modelPath, now, metrics, CANDIDATE, Some(triggerType), trainingSamples)
      ensures versions == old(versions) + [v]
      ensures Numbered(old(versions)) ==> Numbered(versions)
      ensures SingleProduction(old(versions)) ==> SingleProduction(versions)
    {
      v := ModelVersion(VersionId(|versions| + 1), modelPath, now, metrics, CANDIDATE, Some(triggerType), trainingSamples);
      versions := versions + [v];
    }

    /**
     * `promote_to_production`: false, changing nothing, for an unknown id;
     * otherwise every production version is archived and the first version
     * with that id goes to production.
     */
    method PromoteToProduction(versionId: string) returns (ok: bool)
      modifies this
      ensures var t := FindId(old(versions), versionId);
              && ok == t.Some?
              && versions == if ok then Promoted(old(versions), t.value, ARCHIVED) else old(versions)
    {
      var t := 0;
      while t < |versions| && versions[t].versionId != versionId
        invariant 0 <= t <= |versions|
        invariant forall j :: 0 <= j < t ==> versions[j].versionId != versionId
      {
        t := t + 1;
      }
      if t == |versions| {
        return false;
      }
      Demoted(ARCHIVED);
      versions := versions[t := versions[t].(status := PRODUCTION)];
      ok := true;
    }

    /**
     * `rollback`: nothing, changing nothing, without archived versions;
     * otherwise the production versions become candidates and the newest
     * archived version goes to production and is returned.
     */
    method Rollback() returns (r: Option<ModelVersion>)
      modifies this
      ensures var t := NewestArchived(old(versions));
              && (t.None? ==> r.None? && versions == old(versions))
              && (t.Some? ==> versions == Promoted(old(versions), t.value, CANDIDATE) && r == Some(versions[t.value]))
    {
      var best: Option<nat> := None;
      for i := 0 to |versions|
        invariant best == NewestArchived(versions[..i])
      {
        assert versions[..i + 1][..i] == versions[..i];
        if versions[i].status == ARCHIVED && (best.None? || versions[best.value].createdAt < versions[i].createdAt) {
          best := Some(i);
        }
      }
      assert versions[..|versions|] == versions;
      if best.None? {
        return None;
      }
      var t := best.value;
      Demoted(CANDIDATE);
      versions := versions[t := versions[t].(status := PRODUCTION)];
      r := Some(versions[t]);
    }

    /** Every production version gets status `to`. */
    method Demoted(to: string)
      modifies this
      ensures |versions| == |old(versions)|
      ensures forall j :: 0 <= j < |versions| ==> versions[j] == Demote(old(versions)[j], to)
    {
      for k := 0 to |versions|
        invariant |versions| == |old(versions)|
        invariant forall j :: 0 <= j < k ==> versions[j] == Demote(old(versions)[j], to)
        invariant forall j :: k <= j < |versions| ==> versions[j] == old(versions)[j]
      {
        if versions[k].status == PRODUCTION {
          versions := versions[k := versions[k].(status := to)];
        }
      }
    }

    /** `get_production_version`: the first production version, if any. */
    method GetProductionVersion() returns (r: Option<ModelVersion>)
      ensures r.Some? <==> FindProduction(versions).Some?
      ensures r.Some? ==> r.value == versions[FindProduction(versions).value]
    {
      for i := 0 to |versions|
        invariant forall j :: 0 <= j < i ==> versions[j].status != PRODUCTION
      {
        if versions[i].status == PRODUCTION {
          return Some(versions[i]);
        }
      }
      return None;
    }
  }

  // ----------------------------------------------------------------------
  // Canary rollout
  // ----------------------------------------------------------------------

  /** One entry of the canary's metrics history; `timestamp` is a clock reading. */
  datatype CanaryRecord = CanaryRecord(timestamp: int, percentage: real, successRate: real, latencyP99: real, errorRate: real)

  function Sum(xs: seq<real>): real {
    if xs == [] then 0.0 else Sum(xs[..|xs| - 1]) + xs[|xs| - 1]
  }

  /** `np.mean` of a non-empty list. */
  function Mean(xs: seq<real>): real
    requires xs != []
  {
    Sum(xs) / |xs| as real
  }

  lemma {:induction false} SumAtLeast(xs: seq<real>, lo: real)
    requires forall i :: 0 <= i < |xs| ==> lo <= xs[i]
    ensures |xs| as real * lo <= Sum(xs)
    decreases |xs|
  {
    if xs != [] {
      SumAtLeast(xs[..|xs| - 1], lo);
    }
  }

  lemma {:induction false} SumBelow(xs: seq<real>, hi: real)
    requires xs != [] && forall i :: 0 <= i < |xs| ==> xs[i] < hi
    ensures Sum(xs) < |xs| as real * hi
    decreases |xs|
  {
    if |xs| > 1 {
      SumBelow(xs[..|xs| - 1], hi);
    }
  }

  /** A mean is at least any lower bound of the values. */
  lemma MeanAtLeast(xs: seq<real>, lo: real)
    requires xs != [] && forall i :: 0 <= i < |xs| ==> lo <= xs[i]
    ensures lo <= Mean(xs)
  {
    SumAtLeast(xs, lo);
    var n := |xs| as real;
    assert (Mean(xs) - lo) * n == Sum(xs) - lo * n;
  }

  lemma {:induction false} SumAtMost(xs: seq<real>, hi: real)
    requires forall i :: 0 <= i < |xs| ==> xs[i] <= hi
    ensures Sum(xs) <= |xs| as real * hi
    decreases |xs|
  {
    if xs != [] {
      SumAtMost(xs[..|xs| - 1], hi);
    }
  }

  /** A mean is at most any upper bound of the values. */
  lemma MeanAtMost(xs: seq<real>, hi: real)
    requires xs != [] && forall i :: 0 <= i < |xs| ==> xs[i] <= hi
    ensures Mean(xs) <= hi
  {
    SumAtMost(xs, hi);
    var n := |xs| as real;
    assert (hi - Mean(xs)) * n == hi * n - Sum(xs);
  }

  /** A mean is below any strict upper bound of the values. */
  lemma MeanBelow(xs: seq<real>, hi: real)
    requires xs != [] && forall i :: 0 <= i < |xs| ==> xs[i] < hi
    ensures Mean(xs) < hi
  {
    SumBelow(xs, hi);
    var n := |xs| as real;
    assert (hi - Mean(xs)) * n == hi * n - Sum(xs);
  }

  /** `history[-3:]`: the last three entries, or all of them. */
  function Recent(history: seq<CanaryRecord>): (r: seq<CanaryRecord>)
    ensures |r| == if |history| < 3 then |history| else 3
    ensures r == history[|history| - |r|..]
  {
    if |history| <= 3 then history else history[|history| - 3..]
  }

  function SuccessRates(rs: seq<CanaryRecord>): (xs: seq<real>)
    ensures |xs| == |rs| && forall i :: 0 <= i < |rs| ==> xs[i] == rs[i].successRate
  {
    seq(|rs|, i requires 0 <= i < |rs| => rs[i].successRate)
  }

  function ErrorRates(rs: seq<CanaryRecord>): (xs: seq<real>)
    ensures |xs| == |rs| && forall i :: 0 <= i < |rs| ==> xs[i] == rs[i].errorRate
  {
    seq(|rs|, i requires 0 <= i < |rs| => rs[i].errorRate)
  }

  /** `min(100.0, p + increment)`: one step of `increase_traffic`. */
  function Increased(p: real, increment: real): (q: real)
    ensures q <= 100.0
    ensures q == 100.0 || q == p + increment
  {
    if p + increment < 100.0 then p + increment else 100.0
  }

  /** The percentage after `n` calls of `increase_traffic`. */
  function AfterIncreases(p: real, increment: real, n: nat): real {
    if n == 0 then p else Increased(AfterIncreases(p, increment, n - 1), increment)
  }

  /**
   * With a non-negative increment, `n` increases from `p` reach
   * `min(100, p + n * increment)`; so the rollout completes after `n`
   * increases exactly when `p + n * increment >= 100`.
   */
  lemma {:induction false} AfterIncreasesClosed(p: real, increment: real, n: nat)
    requires p <= 100.0 && increment >= 0.0
    ensures AfterIncreases(p, increment, n) == if p + n as real * increment < 100.0 then p + n as real * increment else 100.0
  {
    if n > 0 {
      AfterIncreasesClosed(p, increment, n - 1);
      assert p + (n - 1) as real * increment <= p + n as real * increment;
    }
  }

  class CanaryDeployment {
    const initialPercentage: real
    const increment: real
    const successThreshold: real
    var currentPercentage: real
    var metricsHistory: seq<CanaryRecord>

    constructor (initialPercentage: real, increment: real, successThreshold: real)
      ensures this.initialPercentage == initialPercentage && this.increment == increment
      ensures this.successThreshold == successThreshold
      ensures currentPercentage == 0.0 && metricsHistory == []
    {
      this.initialPercentage := initialPercentage;
      this.increment := increment;
      this.successThreshold := successThreshold;
      currentPercentage := 0.0;
      metricsHistory := [];
    }

    /** `start_canary`: traffic at the initial percentage, history cleared. */
    method StartCanary(newVersionId: string)
      modifies this
      ensures currentPercentage == initialPercentage && metricsHistory == []
    {
      currentPercentage := initialPercentage;
      metricsHistory := [];
    }

    /** `record_metrics`: one entry at the current percentage, appended. */
    method RecordMetrics(successRate: real, latencyP99: real, errorRate: real, now: int)
      modifies this
      ensures metricsHistory == old(metricsHistory) + [CanaryRecord(now, currentPercentage, successRate, latencyP99, errorRate)]
      ensures currentPercentage == old(currentPercentage)
    {
      metricsHistory := metricsHistory + [CanaryRecord(now, currentPercentage, successRate, latencyP99, errorRate)];
    }

    /** `should_increase_traffic`: the mean success rate of the last three entries reaches the threshold. */
    function ShouldIncreaseTraffic(): (r: bool)
      reads this
      ensures r ==> metricsHistory != []
    {
      metricsHistory != [] && Mean(SuccessRates(Recent(metricsHistory))) >= successThreshold
    }

    /** `should_rollback`: the last three entries' mean success rate is below 0.8 or their mean error rate above 0.1. */
    function ShouldRollback(): (r: bool)
      reads this
      ensures r ==> metricsHistory != []
    {
      metricsHistory != [] &&
      (Mean(SuccessRates(Recent(metricsHistory))) < 0.8 || Mean(ErrorRates(Recent(metricsHistory))) > 0.1)
    }

    /** `increase_traffic`: one step up, never above 100. */
    method IncreaseTraffic() returns (p: real)
      modifies this
      ensures currentPercentage == Increased(old(currentPercentage), increment) && p == currentPercentage
      ensures metricsHistory == old(metricsHistory)
    {
      currentPercentage := Increased(currentPercentage, increment);
      p := currentPercentage;
    }

    /** `complete_rollout`: all traffic is on the new version. */
    function CompleteRollout(): (r: bool)
      reads this
      ensures r <==> currentPercentage >= 100.0
    {
      currentPercentage >= 100.0
    }
  }

  /**
   * Traffic grows when each of the last three entries reaches the success
   * threshold, and does not when none of them does.
   */
  lemma IncreaseWhenRecentSucceed(c: CanaryDeployment)
    requires c.metricsHistory != []
    ensures (forall r :: r in Recent(c.metricsHistory) ==> r.successRate >= c.successThreshold) ==> c.ShouldIncreaseTraffic()
    ensures (forall r :: r in Recent(c.metricsHistory) ==> r.successRate < c.successThreshold) ==> !c.ShouldIncreaseTraffic()
  {
    var recent := Recent(c.metricsHistory);
    var xs := SuccessRates(recent);
    if forall r :: r in recent ==> r.successRate >= c.successThreshold {
      forall i | 0 <= i < |xs| ensures c.successThreshold <= xs[i] {
        assert recent[i] in recent;
      }
      MeanAtLeast(xs, c.successThreshold);
    }
    if forall r :: r in recent ==> r.successRate < c.successThreshold {
      forall i | 0 <= i < |xs| ensures xs[i] < c.successThreshold {
        assert recent[i] in recent;
      }
      MeanBelow(xs, c.successThreshold);
    }
  }

  lemma SuccessMeanBelow(rs: seq<CanaryRecord>, hi: real)
    requires rs != [] && forall r :: r in rs ==> r.successRate < hi
    ensures Mean(SuccessRates(rs)) < hi
  {
    var xs := SuccessRates(rs);
    forall i | 0 <= i < |xs| ensures xs[i] < hi {
      assert rs[i] in rs;
    }
    MeanBelow(xs, hi);
  }

  lemma SuccessMeanAtLeast(rs: seq<CanaryRecord>, lo: real)
    requires rs != [] && forall r :: r in rs ==> lo <= r.successRate
    ensures lo <= Mean(SuccessRates(rs))
  {
    var xs := SuccessRates(rs);
    forall i | 0 <= i < |xs| ensures lo <= xs[i] {
      assert rs[i] in rs;
    }
    MeanAtLeast(xs, lo);
  }

  lemma ErrorMeanAtMost(rs: seq<CanaryRecord>, hi: real)
    requires rs != [] && forall r :: r in rs ==> r.errorRate <= hi
    ensures Mean(ErrorRates(rs)) <= hi
  {
    var xs := ErrorRates(rs);
    forall i | 0 <= i < |xs| ensures xs[i] <= hi {
      assert rs[i] in rs;
    }
    MeanAtMost(xs, hi);
  }

  /**
   * The canary is rolled back when each of the last three entries has a
   * success rate below 0.8, and kept when each of them reaches 0.8 with an
   * error rate of at most 0.1.
   */
  lemma RollbackWhen(c: CanaryDeployment)
    requires c.metricsHistory != []
    ensures (forall r :: r in Recent(c.metricsHistory) ==> r.successRate < 0.8) ==> c.ShouldRollback()
    ensures (forall r :: r in Recent(c.metricsHistory) ==> r.successRate >= 0.8 && r.errorRate <= 0.1) ==> !c.ShouldRollback()
  {
    var recent := Recent(c.metricsHistory);
    if forall r :: r in recent ==> r.successRate < 0.8 {
      SuccessMeanBelow(recent, 0.8);
    }
    if forall r :: r in recent ==> r.successRate >= 0.8 && r.errorRate <= 0.1 {
      SuccessMeanAtLeast(recent, 0.8);
      ErrorMeanAtMost(recent, 0.1);
    }
  }
}

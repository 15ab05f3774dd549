/**
 * The metric range planner: which rollup table answers a range query, with which step, and the
 * SELECT statement it turns into (kept as a syntax tree rather than text).
 *
 * Instants are nanoseconds since the epoch and durations are nanoseconds, as in Go's `time`.
 */
module MetricTiers {
  import opened Prelude
  import opened Arith

  const SECOND: int := 1_000_000_000
  const MINUTE: int := 60 * SECOND
  const HOUR: int := 60 * MINUTE
  const DAY: int := 24 * HOUR
  const DEFAULT_MAX_POINTS: int := 500

  datatype TierSpec = TierSpec(name: string, resolution: int, retention: int, timeCol: string, raw: bool)

  const TIERS: seq<TierSpec> := [
    TierSpec("opa.metric_points", 0, 7 * DAY, "ts", true),
    TierSpec("opa.metric_1m", MINUTE, 30 * DAY, "bucket", false),
    TierSpec("opa.metric_5m", 5 * MINUTE, 90 * DAY, "bucket", false),
    TierSpec("opa.metric_1h", HOUR, 400 * DAY, "bucket", false),
    TierSpec("opa.metric_1d", DAY, 1095 * DAY, "bucket", false)
  ]

  /** `time.Time.Sub`: the difference saturates at the ends of the duration range. */
  function Sub(a: int, b: int): (d: int)
    ensures MIN_INT64 <= a - b <= MAX_INT64 <==> d == a - b
    ensures a - b > MAX_INT64 ==> d == MAX_INT64
    ensures a - b < MIN_INT64 ==> d == MIN_INT64
  {
    if a - b > MAX_INT64 then MAX_INT64 else if a - b < MIN_INT64 then MIN_INT64 else a - b
  }

  // ----- Choosing the tier and the step -----

  function EffectiveMaxPoints(maxPoints: int): (m: int)
    ensures m > 0
  {
    if maxPoints <= 0 then DEFAULT_MAX_POINTS else maxPoints
  }

  /** The resolution the caller would like: the span divided into `maxPoints` steps. */
  function Target(from: int, to: int, maxPoints: int): (t: int)
    ensures t >= 0
  {
    var span := if Sub(to, from) <= 0 then MINUTE else Sub(to, from);
    span / EffectiveMaxPoints(maxPoints)
  }

  /** A tier is eligible when it still retains the start of the range. */
  ghost predicate Eligible(t: TierSpec, age: int) {
    t in TIERS && age <= t.retention
  }

  ghost predicate SomeEligible(from: int, now: int) {
    exists t :: Eligible(t, Sub(now, from))
  }

  /**
   * The best tier: the coarsest eligible one that is no coarser than the target, or the finest
   * eligible one when they are all coarser than that.
   */
  ghost predicate BestTier(age: int, target: int, tier: TierSpec) {
    && Eligible(tier, age)
    && if exists t :: Eligible(t, age) && t.resolution <= target then
         && tier.resolution <= target
         && forall t :: Eligible(t, age) && t.resolution <= target ==> t.resolution <= tier.resolution
       else
         forall t :: Eligible(t, age) ==> tier.resolution <= t.resolution
  }

  /** The step: the largest whole number of tier rows that fits the target, and at least one row. */
  ghost predicate BestStep(tier: TierSpec, target: int, step: int) {
    if tier.raw then step == Max(target, SECOND)
    else
      && step > 0
      && tier.resolution > 0
      && step % tier.resolution == 0
      && (step <= target || step == tier.resolution)
      && target < step + tier.resolution
  }

  ghost predicate IsPlan(from: int, to: int, now: int, maxPoints: int, tier: TierSpec, step: int) {
    if SomeEligible(from, now) then
      && BestTier(Sub(now, from), Target(from, to, maxPoints), tier)
      && BestStep(tier, Target(from, to, maxPoints), step)
    else
      tier == TIERS[|TIERS| - 1] && step == DAY
  }

  /** The eligible tiers, finest first. */
  method EligibleTiers(age: int) returns (eligible: seq<TierSpec>)
    ensures forall t :: t in eligible <==> Eligible(t, age)
    ensures forall k :: 0 <= k < |eligible| ==> eligible[0].resolution <= eligible[k].resolution
  {
    eligible := [];
    for i := 0 to |TIERS|
      invariant forall t :: t in eligible <==> t in TIERS[..i] && age <= t.retention
      invariant forall k :: 0 <= k < |eligible| ==> eligible[0].resolution <= eligible[k].resolution
      invariant forall k :: 0 <= k < |eligible| ==> i == |TIERS| || eligible[k].resolution < TIERS[i].resolution
    {
      assert TIERS[..i + 1] == TIERS[..i] + [TIERS[i]];
      if age <= TIERS[i].retention {
        eligible := eligible + [TIERS[i]];
      }
    }
    assert TIERS[..|TIERS|] == TIERS;
  }

  method CoarsestFitting(eligible: seq<TierSpec>, target: int) returns (chosen: TierSpec)
    requires |eligible| > 0
    requires forall k :: 0 <= k < |eligible| ==> eligible[0].resolution <= eligible[k].resolution
    ensures chosen in eligible
    ensures chosen.resolution <= target || chosen == eligible[0]
    ensures forall k :: 0 <= k < |eligible| && eligible[k].resolution <= target ==>
      eligible[k].resolution <= chosen.resolution
  {
    chosen := eligible[0];
    for i := 0 to |eligible|
      invariant chosen in eligible
      invariant chosen == eligible[0] || chosen.resolution <= target
      invariant chosen.resolution >= eligible[0].resolution
      invariant forall k :: 0 <= k < i && eligible[k].resolution <= target ==>
        eligible[k].resolution <= chosen.resolution
    {
      var t := eligible[i];
      if t.resolution <= target && t.resolution >= chosen.resolution {
        chosen := t;
      }
    }
  }

  method StepFor(chosen: TierSpec, target: int) returns (step: int)
    requires chosen in TIERS && target >= 0
    ensures BestStep(chosen, target, step)
  {
    step := target;
    if chosen.resolution > 0 {
      if step < chosen.resolution {
        step := chosen.resolution;
        MulDivMod(1, step);
      } else {
        step := Floor(step, chosen.resolution);
        FloorIsMultiple(target, chosen.resolution);
        MulDivMod(1, chosen.resolution);
        FloorAtLeast(target, chosen.resolution, chosen.resolution);
      }
    } else if step < SECOND {
      step := SECOND;
    }
  }

  method SelectMetricTier(from: int, to: int, now: int, maxPoints: int) returns (tier: TierSpec, step: int)
    ensures IsPlan(from, to, now, maxPoints, tier, step)
  {
    hide BestTier, BestStep, Sub;
    var points := maxPoints;
    if points <= 0 {
      points := DEFAULT_MAX_POINTS;
    }
    var span := Sub(to, from);
    if span <= 0 {
      span := MINUTE;
    }
    var target := span / points;
    var age := Sub(now, from);
    var eligible := EligibleTiers(age);
    if |eligible| == 0 {
      tier := TIERS[|TIERS| - 1];
      step := tier.resolution;
      return;
    }
    assert Eligible(eligible[0], age);
    tier := CoarsestFitting(eligible, target);
    CoarsestIsBest(eligible, age, target, tier);
    step := StepFor(tier, target);
  }

  lemma CoarsestIsBest(eligible: seq<TierSpec>, age: int, target: int, tier: TierSpec)
    requires forall t :: t in eligible <==> Eligible(t, age)
    requires |eligible| > 0 && tier in eligible
    requires forall k :: 0 <= k < |eligible| ==> eligible[0].resolution <= eligible[k].resolution
    requires tier.resolution <= target || tier == eligible[0]
    requires forall k :: 0 <= k < |eligible| && eligible[k].resolution <= target ==>
      eligible[k].resolution <= tier.resolution
    ensures BestTier(age, target, tier) && tier in TIERS
  {
    assert Eligible(tier, age);
    hide Eligible;
    assert forall t :: Eligible(t, age) ==> exists k :: 0 <= k < |eligible| && eligible[k] == t;
  }

  /** The planner's choice is determined by its arguments. */
  lemma PlanUnique(from: int, to: int, now: int, maxPoints: int, t1: TierSpec, s1: int, t2: TierSpec, s2: int)
    requires IsPlan(from, to, now, maxPoints, t1, s1) && IsPlan(from, to, now, maxPoints, t2, s2)
    ensures t1 == t2 && s1 == s2
  {
    if SomeEligible(from, now) {
      assert t1.resolution == t2.resolution;
      assert t1 == t2;
      if !t1.raw {
        var m := t1.resolution;
        SameMultiple(s1, s2, m);
      }
    }
  }

  lemma SameMultiple(a: int, b: int, m: int)
    requires m > 0 && a % m == 0 && b % m == 0 && -m < a - b < m
    ensures a == b
  {
    assert a - b == (a / m - b / m) * m;
    if a / m > b / m { MulMono(1, a / m - b / m, m); }
    if a / m < b / m { MulMono(1, b / m - a / m, m); }
  }

  /** Retention grows along the table, so the eligible tiers are a suffix of it. */
  lemma EligibleIsSuffix(age: int, i: int, j: int)
    requires 0 <= i <= j < |TIERS|
    requires Eligible(TIERS[i], age)
    ensures Eligible(TIERS[j], age)
  {
  }

  /** The chosen tier still holds the start of the range whenever any tier does. */
  lemma ChosenTierRetainsStart(from: int, to: int, now: int, maxPoints: int, tier: TierSpec, step: int)
    requires IsPlan(from, to, now, maxPoints, tier, step)
    ensures tier in TIERS
    ensures Sub(now, from) <= tier.retention <==> SomeEligible(from, now)
    ensures SomeEligible(from, now) <==> Sub(now, from) <= TIERS[|TIERS| - 1].retention
  {
    var coarsest := TIERS[|TIERS| - 1];
    if Sub(now, from) <= coarsest.retention { assert Eligible(coarsest, Sub(now, from)); }
  }

  lemma QuotientAtLeast(x: int, span: int, n: int)
    requires n > 0
    ensures x <= span / n <==> x * n <= span
  {
    if x <= span / n { MulMono(x, span / n, n); }
    if x * n <= span { DivMono(x * n, span, n); MulDivMod(x, n); }
  }

  /** The table still retains the start of the range. */
  ghost predicate Retains(t: TierSpec, from: int, now: int) { t in TIERS && now - from <= t.retention }

  /**
   * The plan in the caller's terms, for `n` points over a span: when some table retains the start, the
   * chosen one does; no coarser such table has rows short enough for `n` of them to fit the span, and
   * neither do the chosen table's unless it is the finest such table; `n` steps fit the span unless the
   * step is a single row or second, and `n` steps one row longer (on the raw table, one nanosecond) do not.
   */
  lemma PlanServesRequest(from: int, to: int, now: int, maxPoints: int, tier: TierSpec, step: int)
    requires IsPlan(from, to, now, maxPoints, tier, step) && exists t :: Retains(t, from, now)
    ensures var n := if maxPoints <= 0 then 500 else maxPoints;
            var span := if to <= from then 60 * SECOND else if to - from > MAX_INT64 then MAX_INT64 else to - from;
            && Retains(tier, from, now)
            && (forall t :: Retains(t, from, now) && t.resolution * n <= span ==> t.resolution <= tier.resolution)
            && (tier.resolution * n <= span || forall t :: Retains(t, from, now) ==> tier.resolution <= t.resolution)
            && (step * n <= span || step == if tier.raw then SECOND else tier.resolution)
            && (step + if tier.raw then 1 else tier.resolution) * n > span
  {
    RetainsIsEligible(from, now);
    hide Retains, Eligible, Sub, Target, BestStep;
    var n := if maxPoints <= 0 then 500 else maxPoints;
    var span := if to <= from then 60 * SECOND else if to - from > MAX_INT64 then MAX_INT64 else to - from;
    TargetIs(from, to, maxPoints);
    assert SomeEligible(from, now) && BestStep(tier, span / n, step);
    forall t | Retains(t, from, now) ensures t.resolution * n <= span <==> t.resolution <= span / n {
      QuotientAtLeast(t.resolution, span, n);
    }
    StepServesRequest(tier, span, n, step);
  }

  lemma RetainsIsEligible(from: int, now: int)
    ensures forall t :: Retains(t, from, now) <==> Eligible(t, Sub(now, from))
  {
  }

  lemma TargetIs(from: int, to: int, maxPoints: int)
    ensures var n := if maxPoints <= 0 then 500 else maxPoints;
            var span := if to <= from then 60 * SECOND else if to - from > MAX_INT64 then MAX_INT64 else to - from;
            Target(from, to, maxPoints) == span / n
  {
  }

  lemma StepServesRequest(tier: TierSpec, span: int, n: int, step: int)
    requires n > 0 && span >= 0 && BestStep(tier, span / n, step)
    ensures step * n <= span || step == if tier.raw then SECOND else tier.resolution
    ensures (step + if tier.raw then 1 else tier.resolution) * n > span
  {
    QuotientAtLeast(step, span, n);
    QuotientAtLeast(step + if tier.raw then 1 else tier.resolution, span, n);
  }

  // ----- The statement -----

  datatype ValueExpr =
    | AvgValue                     // avg(value)
    | SumValue                     // sum(value)
    | MinValue                     // min(value)
    | MaxValue                     // max(value)
    | ArgMaxValueTs                // argMax(value, ts)
    | TDigest(level: string)       // quantileTDigest(level)(value)
    | SumVOverSamples              // sum(sum_v) / greatest(sum(samples), 1)
    | SumSumV                      // sum(sum_v)
    | MinMinV                      // min(min_v)
    | MaxMaxV                      // max(max_v)
    | ArgMaxMergeLast              // argMaxMerge(last_state)
    | TDigestMerge(index: nat)     // arrayElement(quantilesTDigestMerge(QUANTILES)(q_state), index), from 1

  datatype CountExpr = CountOnes | SumSamples

  /** The levels every rollup row keeps a quantile state for. */
  const QUANTILES: seq<string> := ["0.5", "0.9", "0.95", "0.99"]

  const AGGREGATIONS: set<string> := {"avg", "sum", "min", "max", "last", "p50", "p90", "p95", "p99"}

  function QuantileLevel(agg: string): string {
    match agg
    case "p50" => "0.5"
    case "p90" => "0.9"
    case "p95" => "0.95"
    case "p99" => "0.99"
    case _ => "0.5"
  }

  function QuantileIndex(agg: string): nat {
    match agg
    case "p50" => 1
    case "p90" => 2
    case "p95" => 3
    case "p99" => 4
    case _ => 0
  }

  function ValueExprFor(t: TierSpec, agg: string): Result<ValueExpr> {
    if agg !in AGGREGATIONS then Err("unsupported aggregation")
    else if t.raw then
      match agg
      case "avg" => Ok(AvgValue)
      case "sum" => Ok(SumValue)
      case "min" => Ok(MinValue)
      case "max" => Ok(MaxValue)
      case "last" => Ok(ArgMaxValueTs)
      case _ => Ok(TDigest(QuantileLevel(agg)))
    else
      match agg
      case "avg" => Ok(SumVOverSamples)
      case "sum" => Ok(SumSumV)
      case "min" => Ok(MinMinV)
      case "max" => Ok(MaxMaxV)
      case "last" => Ok(ArgMaxMergeLast)
      case _ => Ok(TDigestMerge(QuantileIndex(agg)))
  }

  /** A request; `tenants` stands for the tenant conjunct, `None` when it is empty. */
  datatype RangeQuery = RangeQuery(
    metric: string, seriesIDs: seq<nat>, from: int, to: int, agg: string, maxPoints: int,
    groupBySeries: bool, tenants: Option<set<string>>)

  /**
   * SELECT toStartOfInterval(timeCol, stepSecs), [series_id,] value, count FROM tier WHERE metric
   * AND lo <= timeCol <= hi [AND series_id IN (..)] [AND tenant] GROUP BY bucket [, series_id]
   * ORDER BY bucket LIMIT limit. `lo` and `hi` are instants.
   */
  datatype Select = Select(
    tier: TierSpec, stepSecs: int, value: ValueExpr, count: CountExpr, metric: string, lo: int, hi: int,
    seriesIDs: seq<nat>, tenants: Option<set<string>>, groupBySeries: bool, limit: int)

  datatype Built = Built(select: Select, tier: TierSpec, step: int)

  /** Formatting an instant to whole seconds drops the fraction. */
  function ToSecond(t: int): (r: int)
    ensures r <= t < r + SECOND && r % SECOND == 0
  {
    t - t % SECOND
  }

  function RowLimit(maxPoints: int): int {
    if maxPoints > 0 then Wrap64(maxPoints * 20) else DEFAULT_MAX_POINTS * 20
  }

  /** A statement that answers `q` at time `now`. */
  ghost predicate Answers(q: RangeQuery, now: int, b: Built) {
    && IsPlan(q.from, q.to, now, q.maxPoints, b.tier, b.step)
    && var s := b.select;
       && s.tier == b.tier
       && s.stepSecs == b.step / SECOND >= 1
       && ValueExprFor(b.tier, q.agg) == Ok(s.value)
       && s.count == (if b.tier.raw then CountOnes else SumSamples)
       && s.metric == q.metric && s.seriesIDs == q.seriesIDs && s.tenants == q.tenants
       && s.lo == ToSecond(q.from) && s.hi == ToSecond(q.to)
       && s.groupBySeries == q.groupBySeries
       && s.limit == RowLimit(q.maxPoints)
  }

  method BuildMetricRangeSQL(q: RangeQuery, now: int) returns (r: Result<Built>)
    ensures r.Err? <==> q.agg !in AGGREGATIONS
    ensures r.Ok? ==> Answers(q, now, r.value)
    ensures r.Ok? && 0 < q.maxPoints <= MAX_INT64 / 20 ==> r.value.select.limit == 20 * q.maxPoints
    ensures r.Ok? && q.maxPoints <= 0 ==> r.value.select.limit == 10000
  {
    var tier, step := SelectMetricTier(q.from, q.to, now, q.maxPoints);
    var value := ValueExprFor(tier, q.agg);
    if value.Err? {
      return Err(value.error);
    }
    var stepSecs := step / SECOND;
    StepIsWholeSeconds(q.from, q.to, now, q.maxPoints, tier, step);
    if stepSecs < 1 {
      stepSecs := 1;  // never reached: the planner's step is at least one second
    }
    var maxRows := DEFAULT_MAX_POINTS * 20;
    if q.maxPoints > 0 {
      maxRows := Wrap64(q.maxPoints * 20);
    }
    var select := Select(
      tier, stepSecs, value.value, if tier.raw then CountOnes else SumSamples, q.metric,
      ToSecond(q.from), ToSecond(q.to), q.seriesIDs, q.tenants, q.groupBySeries, maxRows);
    r := Ok(Built(select, tier, step));
  }

  /**
   * Every planned step spans at least one second, so the `stepSecs < 1` fallback is unreachable; on
   * a rollup tier it is a whole number of rows and of seconds; and, when some tier is eligible,
   * twice the emitted step exceeds the target resolution.
   */
  lemma StepIsWholeSeconds(from: int, to: int, now: int, maxPoints: int, tier: TierSpec, step: int)
    requires IsPlan(from, to, now, maxPoints, tier, step)
    ensures step / SECOND >= 1
    ensures !tier.raw ==> tier.resolution > 0 && step % tier.resolution == 0 && step == step / SECOND * SECOND
    ensures SomeEligible(from, now) ==> 2 * (step / SECOND * SECOND) > Target(from, to, maxPoints)
  {
    hide Eligible, Target, Sub, SomeEligible;
    var target := Target(from, to, maxPoints);
    PlannedStep(from, to, now, maxPoints, tier, step);
    if !tier.raw {
      MultipleOfMultiple(step, SECOND, tier.resolution);
      FloorIsMultiple(step, SECOND);
    }
    assert step / SECOND >= 1;
    assert 2 * (step / SECOND * SECOND) > step;
  }

  lemma PlannedStep(from: int, to: int, now: int, maxPoints: int, tier: TierSpec, step: int)
    requires IsPlan(from, to, now, maxPoints, tier, step)
    ensures step >= SECOND
    ensures !tier.raw ==> step >= tier.resolution >= MINUTE && step % tier.resolution == 0
    ensures !tier.raw ==> tier.resolution % SECOND == 0
    ensures SomeEligible(from, now) ==>
              if tier.raw then step >= Target(from, to, maxPoints)
              else Target(from, to, maxPoints) < step + tier.resolution
  {
    hide Target, Sub, SomeEligible;
    assert tier in TIERS by { assert TIERS[|TIERS| - 1] in TIERS; }
    if !tier.raw {
      TierResolution(tier);
      if step < tier.resolution { SameMultiple(step, 0, tier.resolution); }
    }
  }

  lemma TierResolution(tier: TierSpec)
    requires tier in TIERS && !tier.raw
    ensures tier.resolution >= MINUTE && tier.resolution % SECOND == 0
  {
  }
}

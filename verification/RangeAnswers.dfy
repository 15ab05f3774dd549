/** What the numbers of a range answer say about the points they stand for, whichever table answers. */
module RangeAnswers {
  import opened Prelude
  import opened Arith
  import opened Strings
  import opened MetricTiers
  import opened Rollup

  // ----- The points a result row stands for -----

  /** A stretch of time, both ends included. */
  datatype Window = Window(lo: int, hi: int)

  /** The seconds asked for; on a rollup tier, the rows that start in them. */
  ghost function WindowOf(q: RangeQuery, tier: TierSpec): Window
    requires tier.raw || tier.resolution > 0
  {
    var lo, hi := ToSecond(q.from), ToSecond(q.to);
    if tier.raw then Window(lo, hi)
    else Window(Ceil(lo, tier.resolution), Floor(hi, tier.resolution) + tier.resolution - 1)
  }

  /** The request asks for this point, and it belongs to the result row `g` of rows `width` long. */
  ghost predicate Belongs(q: RangeQuery, w: Window, width: int, g: GroupKey, x: Point)
    requires width > 0
  {
    && x.key.metric == q.metric
    && (q.seriesIDs == [] || x.key.series in q.seriesIDs)
    && (q.tenants.None? || x.key.tenant in q.tenants.value)
    && w.lo <= x.ts <= w.hi
    && g.bucketTs % width == 0 && g.bucketTs <= x.ts < g.bucketTs + width
    && g.series == if q.groupBySeries then Some(x.key.series) else None
  }

  /** Those points, in table order. */
  ghost function Chosen(q: RangeQuery, w: Window, width: int, g: GroupKey, table: seq<Point>): seq<Point>
    requires width > 0
  {
    if table == [] then []
    else (if Belongs(q, w, width, g, table[0]) then [table[0]] else []) + Chosen(q, w, width, g, table[1..])
  }

  ghost function Total(points: seq<Point>): real {
    if points == [] then 0.0 else points[0].value + Total(points[1..])
  }

  /** The value and the sample count that an aggregation's name promises for some points. */
  ghost predicate Tells(agg: string, points: seq<Point>, cell: Cell) {
    && points != [] && cell.value.Some? && cell.sampleCount == Some(|points| as real)
    && var v := cell.value.value;
       && (agg == "min" ==> (exists x :: x in points && x.value == v) && forall x :: x in points ==> v <= x.value)
       && (agg == "max" ==> (exists x :: x in points && x.value == v) && forall x :: x in points ==> x.value <= v)
       && (agg == "sum" ==> v == Total(points))
       && (agg == "avg" ==> v * |points| as real == Total(points))
       && (agg == "last" ==> exists x :: x in points && x.value == v && forall y :: y in points ==> y.ts <= x.ts)
  }

  const VALUE_AGGREGATIONS: set<string> := {"avg", "sum", "min", "max", "last"}

  // ----- Filters and chosen points -----

  /** `p` selects exactly the points that belong. */
  ghost predicate Selects(p: Point -> bool, q: RangeQuery, w: Window, width: int, g: GroupKey)
    requires width > 0
  {
    forall x :: p(x) == Belongs(q, w, width, g, x)
  }

  lemma {:induction false} ChosenMembers(q: RangeQuery, w: Window, width: int, g: GroupKey, table: seq<Point>)
    requires width > 0
    ensures forall x :: x in Chosen(q, w, width, g, table) <==> x in table && Belongs(q, w, width, g, x)
  {
    hide Belongs;
    if table != [] {
      ChosenMembers(q, w, width, g, table[1..]);
      assert table == [table[0]] + table[1..];
    }
  }

  lemma {:induction false} SumsOfChosen(
      p: Point -> bool, q: RangeQuery, w: Window, width: int, g: GroupKey, table: seq<Point>)
    requires width > 0 && Selects(p, q, w, width, g)
    ensures SumIf(table, p, One()) == |Chosen(q, w, width, g, table)| as real
    ensures SumIf(table, p, ValueOf()) == Total(Chosen(q, w, width, g, table))
  {
    hide Belongs;
    if table != [] {
      SumsOfChosen(p, q, w, width, g, table[1..]);
      assert p(table[0]) == Belongs(q, w, width, g, table[0]);
      var rest := Chosen(q, w, width, g, table[1..]);
      assert ([table[0]] + rest)[1..] == rest;
      assert [] + rest == rest;
    }
  }

  /** The raw aggregates over a filter say what their names promise of the points it selects. */
  lemma PointsTell(
      agg: string, s: Select, table: seq<Point>, p: Point -> bool, q: RangeQuery, w: Window, width: int, g: GroupKey)
    requires agg in VALUE_AGGREGATIONS && ValueExprFor(TIERS[0], agg) == Ok(s.value)
    requires width > 0 && Selects(p, q, w, width, g)
    requires Chosen(q, w, width, g, table) != []
    ensures Tells(agg, Chosen(q, w, width, g, table),
                  Cell(PointValue(s.value, table, p), PointCount(CountOnes, table, p)))
  {
    hide Belongs, Chosen, Total, SumIf, MinIf, LastIf;
    ChosenMembers(q, w, width, g, table);
    SumsOfChosen(p, q, w, width, g, table);
    var points := Chosen(q, w, width, g, table);
    assert p(points[0]) && points[0] in table;
  }

  /** A time lies in the bucket that starts at `b` exactly when rounding it down gives `b`. */
  lemma BucketIs(t: int, m: int, b: int)
    requires m > 0
    ensures Floor(t, m) == b <==> b % m == 0 && b <= t < b + m
  {
    FloorIsMultiple(t, m);
    if b % m == 0 && b <= t < b + m { SameMultiple(Floor(t, m), b, m); }
  }

  lemma RawFilter(q: RangeQuery, now: int, b: Built, g: GroupKey)
    requires Answers(q, now, b) && b.tier.raw
    ensures Selects(PointIn(b.select, g), q, WindowOf(q, b.tier), StepOf(b.select), g)
  {
    hide IsPlan, ValueExprFor;
    forall x: Point
      ensures PointIn(b.select, g)(x) == Belongs(q, WindowOf(q, b.tier), StepOf(b.select), g, x)
    {
      BucketIs(x.ts, StepOf(b.select), g.bucketTs);
    }
  }

  lemma WidenedFilter(q: RangeQuery, now: int, b: Built, raw: ValueExpr, g: GroupKey)
    requires Answers(q, now, b) && b.tier.resolution > 0 && !b.tier.raw
    ensures Selects(PointIn(RawEquivalent(b.select, raw), g), q, WindowOf(q, b.tier), StepOf(b.select), g)
  {
    hide IsPlan, ValueExprFor;
    var s := RawEquivalent(b.select, raw);
    forall x: Point ensures PointIn(s, g)(x) == Belongs(q, WindowOf(q, b.tier), StepOf(b.select), g, x) {
      BucketIs(x.ts, StepOf(s), g.bucketTs);
    }
  }

  lemma GroupHasPoints(s: Select, table: seq<Point>, q: RangeQuery, w: Window, g: GroupKey)
    requires s.stepSecs > 0 && Selects(PointIn(s, g), q, w, StepOf(s), g)
    ensures g in PointGroups(s, table) <==> Chosen(q, w, StepOf(s), g, table) != []
  {
    hide Chosen, Belongs, Selected, GroupOf;
    ChosenMembers(q, w, StepOf(s), g, table);
    var points := Chosen(q, w, StepOf(s), g, table);
    if points != [] { assert points[0] in table && PointIn(s, g)(points[0]); }
    if g in PointGroups(s, table) {
      var x :| x in table && Selected(s, x.key, x.ts) && GroupOf(s, x.key, x.ts) == g;
      assert PointIn(s, g)(x) && x in points;
    }
  }

  // ----- The answers -----

  /**
   * Over the raw table: every request answered from it has a result row exactly where the request
   * selects points, and the row's value and sample count are what the aggregation's name says of them.
   */
  lemma RawAnswerTells(q: RangeQuery, now: int, b: Built, table: seq<Point>, g: GroupKey)
    requires Answers(q, now, b) && b.tier.raw && q.agg in VALUE_AGGREGATIONS
    ensures var points := Chosen(q, WindowOf(q, b.tier), b.step / SECOND * SECOND, g, table);
            && (g in EvalPoints(b.select, table) <==> points != [])
            && (points != [] ==> Tells(q.agg, points, EvalPoints(b.select, table)[g]))
  {
    RawFilter(q, now, b, g);
    RawIsFirst(b.tier, q, now, b.step);
    hide IsPlan, Tells, Chosen, PointValue, PointGroups, WindowOf, Selects, PointIn;
    var w := WindowOf(q, b.tier);
    GroupHasPoints(b.select, table, q, w, g);
    if g in PointGroups(b.select, table) {
      PointsTell(q.agg, b.select, table, PointIn(b.select, g), q, w, StepOf(b.select), g);
    }
  }

  lemma RawIsFirst(tier: TierSpec, q: RangeQuery, now: int, step: int)
    requires IsPlan(q.from, q.to, now, q.maxPoints, tier, step) && tier.raw
    ensures tier == TIERS[0]
  {
  }

  /** Over a rollup the value is what the raw aggregate's name promises. */
  lemma RowsTell(agg: string, s: Select, raw: ValueExpr, rows: seq<Row>, points: seq<Point>, chunks: seq<seq<Point>>,
      q: RangeQuery, w: Window, g: GroupKey)
    requires s.stepSecs > 0 && s.tier.resolution > 0 && StepOf(s) % s.tier.resolution == 0
    requires agg in VALUE_AGGREGATIONS && ValueExprFor(TIERS[0], agg) == Ok(raw) && Rewrites(raw, s.value)
    requires raw.ArgMaxValueTs? <==> agg == "last"
    requires s.count == SumSamples && IsRollup(rows, points, chunks, s.tier.resolution)
    requires Selects(PointIn(RawEquivalent(s, raw), g), q, w, StepOf(s), g)
    requires g in PointGroups(RawEquivalent(s, raw), points)
    requires Chosen(q, w, StepOf(s), g, points) != []
    ensures Tells(agg, Chosen(q, w, StepOf(s), g, points),
                  Cell(RowValue(s.value, rows, RowIn(s, g)), RowCount(s.count, rows, RowIn(s, g))))
  {
    assert AreChunks(chunks, s.tier.resolution) && (agg == "last" ==> s.value == ArgMaxMergeLast);
    hide Selects, PointIn, RowIn, IsRollup, Agree, Chosen, PointGroups, SumIf, LastIf, Total, ValueExprFor, Rewrites,
         Tells, PointValue, RowValue;
    var e := RawEquivalent(s, raw);
    var p, r := PointIn(e, g), RowIn(s, g);
    GroupAgrees(s, raw, chunks, g);
    SameSamples(s, raw, rows, points, chunks, g);
    SumsOfChosen(p, q, w, StepOf(s), g, points);
    if agg == "last" {
      LatestOfRows(s, rows, points, chunks, p, r, q, w, g);
      LastTells(Chosen(q, w, StepOf(s), g, points), rows, r);
    } else {
      SameValue(raw, s.value, rows, points, chunks, s.tier.resolution, p, r);
      PointsTell(agg, e, points, p, q, w, StepOf(s), g);
    }
  }

  /** The value of the merged `last` states is that of a latest point. */
  ghost predicate EndsLatest(points: seq<Point>, l: Option<Last>) {
    l.Some? && exists x :: x in points && x.value == l.value.value && forall y :: y in points ==> y.ts <= x.ts
  }

  lemma LastTells(points: seq<Point>, rows: seq<Row>, r: Row -> bool)
    requires points != [] && EndsLatest(points, LastIf(rows, r, RowLast()))
    requires SumIf(rows, r, Samples()) == |points| as real
    ensures Tells("last", points, Cell(RowValue(ArgMaxMergeLast, rows, r), RowCount(SumSamples, rows, r)))
  {
    hide SumIf, LastIf, Total;
  }

  lemma LatestOfRows(s: Select, rows: seq<Row>, points: seq<Point>, chunks: seq<seq<Point>>, p: Point -> bool,
      r: Row -> bool, q: RangeQuery, w: Window, g: GroupKey)
    requires s.stepSecs > 0 && s.tier.resolution > 0
    requires IsRollup(rows, points, chunks, s.tier.resolution) && Agree(chunks, s.tier.resolution, p, r)
    requires Selects(p, q, w, StepOf(s), g) && Chosen(q, w, StepOf(s), g, points) != []
    ensures EndsLatest(Chosen(q, w, StepOf(s), g, points), LastIf(rows, r, RowLast()))
  {
    hide IsRollup, Agree, Chosen, LastIf;
    ChosenMembers(q, w, StepOf(s), g, points);
    var chosen := Chosen(q, w, StepOf(s), g, points);
    forall y | y in chosen
      ensures LastIf(rows, r, RowLast()).Some? && y.ts <= LastIf(rows, r, RowLast()).value.ts
    {
      PointLastBelow(rows, points, chunks, s.tier.resolution, p, r, y);
    }
    assert chosen[0] in chosen;
    var x := RowLastBelow(rows, points, chunks, s.tier.resolution, p, r);
    assert x in chosen;
  }

  /**
   * Over every rollup of every table of points: the same, for the points of the window widened to whole
   * rows. No point is lost or counted twice, and `last` needs no assumption on equal time stamps.
   */
  lemma RollupAnswerTells(
      q: RangeQuery, now: int, b: Built, rows: seq<Row>, table: seq<Point>, chunks: seq<seq<Point>>, g: GroupKey)
    requires Answers(q, now, b) && !b.tier.raw && q.agg in VALUE_AGGREGATIONS
    requires IsRollup(rows, table, chunks, b.tier.resolution)
    ensures var points := Chosen(q, WindowOf(q, b.tier), b.step / SECOND * SECOND, g, table);
            && (g in EvalRows(b.select, rows) <==> points != [])
            && (points != [] ==> Tells(q.agg, points, EvalRows(b.select, rows)[g]))
  {
    StepIsWholeSeconds(q.from, q.to, now, q.maxPoints, b.tier, b.step);
    PlannerRewrites(b.tier, q.agg);
    var raw := ValueExprFor(TIERS[0], q.agg).value;
    WidenedFilter(q, now, b, raw, g);
    hide IsPlan, Tells, Chosen, RowValue, RowCount, PointGroups, RowGroups, WindowOf, Selects, PointIn, RowIn, IsRollup,
         ValueExprFor, Rewrites;
    var s, w := b.select, WindowOf(q, b.tier);
    GroupHasPoints(RawEquivalent(s, raw), table, q, w, g);
    SameGroups(s, raw, rows, table, chunks);
    if g in RowGroups(s, rows) { RowsTell(q.agg, s, raw, rows, table, chunks, q, w, g); }
  }

  // ----- Quantiles -----

  /** The level a quantile expression asks for. */
  function LevelOf(e: ValueExpr): Option<string> {
    match e
    case TDigest(level) => Some(level)
    case TDigestMerge(i) => if 1 <= i <= |QUANTILES| then Some(QUANTILES[i - 1]) else None
    case _ => None
  }

  /** The number a string of decimals denotes after the point. */
  function Fraction(digits: string): real {
    if digits == "" then 0.0 else ((digits[0] as int - '0' as int) as real + Fraction(digits[1..])) / 10.0
  }

  /** Every percentile asks its table for the level of its name, raw or rolled up: p95 for 0.95. */
  lemma QuantileAsksItsLevel(q: RangeQuery, now: int, b: Built)
    requires Answers(q, now, b) && q.agg !in VALUE_AGGREGATIONS
    ensures LevelOf(b.select.value).Some? && q.agg[0] == 'p'
    ensures var level := LevelOf(b.select.value).value;
            "0." <= level && 100.0 * Fraction(level[2..]) == ReadDecimal(q.agg[1..]) as real
  {
    hide IsPlan, Fraction, ReadDecimal;
    var name, level := q.agg, LevelOf(b.select.value).value;
    match name {
      case "p50" => TenTimes(name, level, '5');
      case "p90" => TenTimes(name, level, '9');
      case "p95" => BothDigits(name, level, '9', '5');
      case "p99" => BothDigits(name, level, '9', '9');
    }
  }

  lemma DigitsRead(name: string, c: char, d: char)
    requires name == ['p', c, d]
    ensures ReadDecimal(name[1..]) == (c as int - '0' as int) * 10 + (d as int - '0' as int)
  {
    assert name[1..] == [c, d];
    assert name[1..][..1] == [c] && [c][..0] == "";
    assert ReadDecimal([c]) == c as int - '0' as int;
  }

  lemma TenTimes(name: string, level: string, c: char)
    requires name == ['p', c, '0'] && level == ['0', '.', c]
    ensures "0." <= level && 100.0 * Fraction(level[2..]) == ReadDecimal(name[1..]) as real
  {
    DigitsRead(name, c, '0');
    assert level[2..] == [c] && [c][1..] == "";
  }

  lemma BothDigits(name: string, level: string, c: char, d: char)
    requires name == ['p', c, d] && level == ['0', '.', c, d]
    ensures "0." <= level && 100.0 * Fraction(level[2..]) == ReadDecimal(name[1..]) as real
  {
    DigitsRead(name, c, d);
    assert level[2..] == [c, d] && [c, d][1..] == [d] && [d][1..] == "";
    assert Fraction([d]) == (d as int - '0' as int) as real / 10.0;
  }
}

/**
 * A small evaluator for the planner's statements, and the proof that answering from a rollup table
 * gives what the raw points would have given.
 */
module Rollup {
  import opened Prelude
  import opened Arith
  import opened MetricTiers

  datatype Key = Key(metric: string, tenant: string, series: nat)

  datatype Point = Point(key: Key, ts: int, value: real)

  datatype Last = Last(ts: int, value: real)

  /** A rollup row: the aggregate state of some points of one series in one bucket. */
  datatype Row = Row(key: Key, bucket: int, samples: nat, sumV: real, minV: real, maxV: real, last: Last)

  // ----- Aggregate functions over the rows that satisfy a condition -----

  ghost function SumIf<R>(s: seq<R>, p: R -> bool, f: R -> real): real {
    if s == [] then 0.0 else (if p(s[0]) then f(s[0]) else 0.0) + SumIf(s[1..], p, f)
  }

  /** `min(f)`; no row gives no value. */
  ghost function MinIf<R>(s: seq<R>, p: R -> bool, f: R -> real): (m: Option<real>)
    ensures m.None? ==> forall r :: r in s ==> !p(r)
    ensures m.Some? ==> exists r :: r in s && p(r) && f(r) == m.value
    ensures m.Some? ==> forall r :: r in s && p(r) ==> m.value <= f(r)
  {
    if s == [] then None
    else
      var rest := MinIf(s[1..], p, f);
      if p(s[0]) && (rest.None? || f(s[0]) <= rest.value) then Some(f(s[0])) else rest
  }

  ghost function Negated(m: Option<real>): Option<real> {
    if m.Some? then Some(-m.value) else None
  }

  /** The state of `argMax(value, ts)`. */
  ghost function LastIf<R>(s: seq<R>, p: R -> bool, f: R -> Last): (m: Option<Last>)
    ensures m.None? ==> forall r :: r in s ==> !p(r)
    ensures m.Some? ==> exists r :: r in s && p(r) && f(r) == m.value
    ensures m.Some? ==> forall r :: r in s && p(r) ==> f(r).ts <= m.value.ts
  {
    if s == [] then None
    else
      var rest := LastIf(s[1..], p, f);
      if p(s[0]) && (rest.None? || f(s[0]).ts >= rest.value.ts) then Some(f(s[0])) else rest
  }

  ghost function One(): Point -> real { (_: Point) => 1.0 }

  ghost function ValueOf(): Point -> real { (x: Point) => x.value }

  ghost function MinusValue(): Point -> real { (x: Point) => -x.value }

  ghost function OneRow(): Row -> real { (_: Row) => 1.0 }

  ghost function Samples(): Row -> real { (x: Row) => x.samples as real }

  ghost function SumVOf(): Row -> real { (x: Row) => x.sumV }

  ghost function MinVOf(): Row -> real { (x: Row) => x.minV }

  ghost function MinusMaxV(): Row -> real { (x: Row) => -x.maxV }

  ghost function PointLast(): Point -> Last { (x: Point) => Last(x.ts, x.value) }

  ghost function RowLast(): Row -> Last { (x: Row) => x.last }

  // ----- Evaluating a statement -----

  /** A GROUP BY key: the bucket, and the series when grouping by series. */
  datatype GroupKey = GroupKey(bucketTs: int, series: Option<nat>)

  /** One result row; `None` where the expression does not fit the table. */
  datatype Cell = Cell(value: Option<real>, sampleCount: Option<real>)

  ghost predicate InScope(s: Select, k: Key) {
    && k.metric == s.metric
    && (s.seriesIDs == [] || k.series in s.seriesIDs)
    && (s.tenants.None? || k.tenant in s.tenants.value)
  }

  ghost function StepOf(s: Select): (n: int)
    requires s.stepSecs > 0
    ensures n > 0
  {
    s.stepSecs * SECOND
  }

  ghost function GroupOf(s: Select, k: Key, t: int): GroupKey
    requires s.stepSecs > 0
  {
    GroupKey(Floor(t, StepOf(s)), if s.groupBySeries then Some(k.series) else None)
  }

  ghost predicate Selected(s: Select, k: Key, t: int) {
    InScope(s, k) && s.lo <= t <= s.hi
  }

  ghost function PointIn(s: Select, g: GroupKey): Point -> bool
    requires s.stepSecs > 0
  {
    (p: Point) => Selected(s, p.key, p.ts) && GroupOf(s, p.key, p.ts) == g
  }

  ghost function RowIn(s: Select, g: GroupKey): Row -> bool
    requires s.stepSecs > 0
  {
    (r: Row) => Selected(s, r.key, r.bucket) && GroupOf(s, r.key, r.bucket) == g
  }

  ghost function PointValue(e: ValueExpr, table: seq<Point>, p: Point -> bool): Option<real> {
    match e
    case AvgValue =>
      var n := SumIf(table, p, One());
      if n == 0.0 then None else Some(SumIf(table, p, ValueOf()) / n)
    case SumValue => Some(SumIf(table, p, ValueOf()))
    case MinValue => MinIf(table, p, ValueOf())
    case MaxValue => Negated(MinIf(table, p, MinusValue()))
    case ArgMaxValueTs =>
      var l := LastIf(table, p, PointLast());
      if l.Some? then Some(l.value.value) else None
    case _ => None
  }

  ghost function RowValue(e: ValueExpr, table: seq<Row>, p: Row -> bool): Option<real> {
    match e
    case SumVOverSamples =>
      var n := SumIf(table, p, Samples());
      Some(SumIf(table, p, SumVOf()) / if n < 1.0 then 1.0 else n)
    case SumSumV => Some(SumIf(table, p, SumVOf()))
    case MinMinV => MinIf(table, p, MinVOf())
    case MaxMaxV => Negated(MinIf(table, p, MinusMaxV()))
    case ArgMaxMergeLast =>
      var l := LastIf(table, p, RowLast());
      if l.Some? then Some(l.value.value) else None
    case _ => None
  }

  /** `sum(1)` or `sum(samples)`; raw points have no `samples` column. */
  ghost function PointCount(e: CountExpr, table: seq<Point>, p: Point -> bool): Option<real> {
    match e
    case CountOnes => Some(SumIf(table, p, One()))
    case SumSamples => None
  }

  ghost function RowCount(e: CountExpr, table: seq<Row>, p: Row -> bool): Option<real> {
    match e
    case CountOnes => Some(SumIf(table, p, OneRow()))
    case SumSamples => Some(SumIf(table, p, Samples()))
  }

  /** The result over the raw table, before ORDER BY and LIMIT. */
  ghost function EvalPoints(s: Select, table: seq<Point>): map<GroupKey, Cell>
    requires s.stepSecs > 0
  {
    map g | g in PointGroups(s, table) ::
      Cell(PointValue(s.value, table, PointIn(s, g)), PointCount(s.count, table, PointIn(s, g)))
  }

  ghost function PointGroups(s: Select, table: seq<Point>): set<GroupKey>
    requires s.stepSecs > 0
  {
    set p | p in table && Selected(s, p.key, p.ts) :: GroupOf(s, p.key, p.ts)
  }

  /** The result over a rollup table, before ORDER BY and LIMIT. */
  ghost function EvalRows(s: Select, table: seq<Row>): map<GroupKey, Cell>
    requires s.stepSecs > 0
  {
    map g | g in RowGroups(s, table) ::
      Cell(RowValue(s.value, table, RowIn(s, g)), RowCount(s.count, table, RowIn(s, g)))
  }

  ghost function RowGroups(s: Select, table: seq<Row>): set<GroupKey>
    requires s.stepSecs > 0
  {
    set r | r in table && Selected(s, r.key, r.bucket) :: GroupOf(s, r.key, r.bucket)
  }

  // ----- What a rollup table holds -----

  /** Some points of one series that fall in one bucket. */
  ghost predicate IsChunk(c: seq<Point>, res: int)
    requires res > 0
  {
    c != [] && forall p :: p in c ==> p.key == c[0].key && Floor(p.ts, res) == Floor(c[0].ts, res)
  }

  ghost predicate AreChunks(chunks: seq<seq<Point>>, res: int)
    requires res > 0
  {
    forall c :: c in chunks ==> IsChunk(c, res)
  }

  ghost function Any(): Point -> bool { (_: Point) => true }

  ghost function Summarise(c: seq<Point>, res: int): (r: Row)
    requires res > 0 && IsChunk(c, res)
    ensures r.key == c[0].key && r.bucket == Floor(c[0].ts, res)
  {
    assert c[0] in c && Any()(c[0]);
    Row(c[0].key, Floor(c[0].ts, res), |c|,
      SumIf(c, Any(), ValueOf()),
      MinIf(c, Any(), ValueOf()).value,
      -MinIf(c, Any(), MinusValue()).value,
      LastIf(c, Any(), PointLast()).value)
  }

  ghost function Summaries(chunks: seq<seq<Point>>, res: int): (rows: seq<Row>)
    requires res > 0 && AreChunks(chunks, res)
    ensures |rows| == |chunks|
    ensures forall i :: 0 <= i < |chunks| ==> chunks[i] in chunks && rows[i] == Summarise(chunks[i], res)
  {
    assert forall i :: 0 <= i < |chunks| ==> chunks[i] in chunks;
    seq(|chunks|, i requires 0 <= i < |chunks| => Summarise(chunks[i], res))
  }

  /**
   * `rows` is a rollup of `points` at resolution `res`: the points, in any order, split into chunks
   * of one series and one bucket, each summarised by one row. Several rows may share a series and a
   * bucket, as they do before a merge.
   */
  ghost predicate IsRollup(rows: seq<Row>, points: seq<Point>, chunks: seq<seq<Point>>, res: int) {
    res > 0 && AreChunks(chunks, res) && rows == Summaries(chunks, res) && multiset(points) == multiset(Flatten(chunks))
  }

  lemma {:induction false} FlattenSingletons(points: seq<Point>)
    ensures Flatten(seq(|points|, i requires 0 <= i < |points| => [points[i]])) == points
  {
    var chunks := seq(|points|, i requires 0 <= i < |points| => [points[i]]);
    if points != [] {
      FlattenSingletons(points[1..]);
      assert chunks[1..] == seq(|points[1..]|, i requires 0 <= i < |points[1..]| => [points[1..][i]]);
      assert points == [points[0]] + points[1..];
    }
  }

  /** Every table of points has a rollup: before any merge, one row per point. */
  lemma RollupExists(points: seq<Point>, res: int) returns (rows: seq<Row>, chunks: seq<seq<Point>>)
    requires res > 0
    ensures IsRollup(rows, points, chunks, res) && |rows| == |points|
  {
    chunks := seq(|points|, i requires 0 <= i < |points| => [points[i]]);
    forall c | c in chunks ensures IsChunk(c, res) {
      var i :| 0 <= i < |chunks| && chunks[i] == c;
    }
    rows := Summaries(chunks, res);
    FlattenSingletons(points);
  }

  // ----- Sums -----

  lemma {:induction false} SumIfAppend<R>(a: seq<R>, b: seq<R>, p: R -> bool, f: R -> real)
    ensures SumIf(a + b, p, f) == SumIf(a, p, f) + SumIf(b, p, f)
  {
    if a == [] {
      assert a + b == b;
    } else {
      SumIfAppend(a[1..], b, p, f);
      assert (a + b)[1..] == a[1..] + b;
    }
  }

  ghost function Without<R>(b: seq<R>, i: nat): (r: seq<R>)
    requires i < |b|
    ensures |r| == |b| - 1
  {
    b[..i] + b[i + 1..]
  }

  lemma WithoutMultiset<R>(b: seq<R>, i: nat)
    requires i < |b|
    ensures multiset(Without(b, i)) == multiset(b) - multiset{b[i]}
  {
    assert b == b[..i] + [b[i]] + b[i + 1..];
  }

  lemma TailMultiset<R>(a: seq<R>)
    requires a != []
    ensures multiset(a[1..]) == multiset(a) - multiset{a[0]}
  {
    assert a == [a[0]] + a[1..];
  }

  lemma SumIfWithout<R>(b: seq<R>, i: nat, p: R -> bool, f: R -> real)
    requires i < |b|
    ensures SumIf(b, p, f) == SumIf(Without(b, i), p, f) + if p(b[i]) then f(b[i]) else 0.0
  {
    assert b == b[..i] + ([b[i]] + b[i + 1..]);
    SumIfAppend(b[..i], [b[i]] + b[i + 1..], p, f);
    SumIfAppend(b[..i], b[i + 1..], p, f);
    assert ([b[i]] + b[i + 1..])[1..] == b[i + 1..];
  }

  /** SQL sums do not depend on the order of the rows. */
  lemma {:induction false} SumIfPermuted<R>(a: seq<R>, b: seq<R>, p: R -> bool, f: R -> real)
    requires multiset(a) == multiset(b)
    ensures SumIf(a, p, f) == SumIf(b, p, f)
  {
    hide Without;
    if a == [] {
      assert |multiset(b)| == |b|;
    } else {
      assert a[0] in multiset(b);
      var i :| 0 <= i < |b| && b[i] == a[0];
      WithoutMultiset(b, i);
      TailMultiset(a);
      SumIfPermuted(a[1..], Without(b, i), p, f);
      SumIfWithout(b, i, p, f);
    }
  }

  /** A condition that holds for all rows or for none. */
  lemma {:induction false} SumIfUniform(c: seq<Point>, p: Point -> bool, keep: bool, f: Point -> real)
    requires forall x :: x in c ==> p(x) == keep
    ensures SumIf(c, p, f) == if keep then SumIf(c, Any(), f) else 0.0
  {
    if c != [] {
      assert c[0] in c;
      SumIfUniform(c[1..], p, keep, f);
    }
  }

  /** Conditions on points and on rows that agree on every chunk. */
  ghost predicate Agree(chunks: seq<seq<Point>>, res: int, p: Point -> bool, q: Row -> bool)
    requires res > 0 && AreChunks(chunks, res)
  {
    forall c, x :: c in chunks && x in c ==> p(x) == q(Summarise(c, res))
  }

  lemma {:induction false} SumOverChunks(
      chunks: seq<seq<Point>>, res: int, p: Point -> bool, q: Row -> bool, f: Point -> real, g: Row -> real)
    requires res > 0 && AreChunks(chunks, res) && Agree(chunks, res, p, q)
    requires forall c :: c in chunks ==> g(Summarise(c, res)) == SumIf(c, Any(), f)
    ensures SumIf(Flatten(chunks), p, f) == SumIf(Summaries(chunks, res), q, g)
  {
    if chunks != [] {
      var c := chunks[0];
      assert c in chunks;
      SumIfUniform(c, p, q(Summarise(c, res)), f);
      SumIfAppend(c, Flatten(chunks[1..]), p, f);
      SumOverChunks(chunks[1..], res, p, q, f, g);
      assert Summaries(chunks, res)[1..] == Summaries(chunks[1..], res);
    }
  }

  lemma SumOverRollup(
      rows: seq<Row>, points: seq<Point>, chunks: seq<seq<Point>>, res: int, p: Point -> bool, q: Row -> bool,
      f: Point -> real, g: Row -> real)
    requires IsRollup(rows, points, chunks, res) && Agree(chunks, res, p, q)
    requires forall c :: c in chunks ==> g(Summarise(c, res)) == SumIf(c, Any(), f)
    ensures SumIf(points, p, f) == SumIf(rows, q, g)
  {
    SumIfPermuted(points, Flatten(chunks), p, f);
    SumOverChunks(chunks, res, p, q, f, g);
  }

  lemma {:induction false} CountIsLength(c: seq<Point>)
    ensures SumIf(c, Any(), One()) == |c| as real
  {
    if c != [] { CountIsLength(c[1..]); }
  }

  // ----- Extrema: these need only which points are in which chunk -----

  lemma {:induction false} FlattenMembers<T>(ss: seq<seq<T>>, x: T)
    ensures x in Flatten(ss) <==> exists c :: c in ss && x in c
  {
    if ss != [] {
      FlattenMembers(ss[1..], x);
      assert ss == [ss[0]] + ss[1..];
      if x in ss[0] { assert ss[0] in ss; }
    }
  }

  lemma PointInChunk(rows: seq<Row>, points: seq<Point>, chunks: seq<seq<Point>>, res: int, x: Point)
      returns (c: seq<Point>)
    requires IsRollup(rows, points, chunks, res) && x in points
    ensures c in chunks && x in c && Summarise(c, res) in rows
  {
    assert x in multiset(Flatten(chunks));
    FlattenMembers(chunks, x);
    c :| c in chunks && x in c;
    var i :| 0 <= i < |chunks| && chunks[i] == c;
    assert rows[i] == Summarise(c, res);
  }

  lemma ChunkOfRow(rows: seq<Row>, points: seq<Point>, chunks: seq<seq<Point>>, res: int, r: Row)
      returns (c: seq<Point>)
    requires IsRollup(rows, points, chunks, res) && r in rows
    ensures c in chunks && r == Summarise(c, res)
    ensures forall x :: x in c ==> x in points
  {
    var i :| 0 <= i < |rows| && rows[i] == r;
    c := chunks[i];
    forall x | x in c ensures x in points {
      FlattenMembers(chunks, x);
      assert x in multiset(points);
    }
  }

  /** A selected point lies under a selected row whose minimum is no greater. */
  lemma PointAboveRow(
      rows: seq<Row>, points: seq<Point>, chunks: seq<seq<Point>>, res: int, p: Point -> bool, q: Row -> bool, x: Point)
      returns (c: seq<Point>)
    requires IsRollup(rows, points, chunks, res) && Agree(chunks, res, p, q)
    requires x in points && p(x)
    ensures c in chunks && x in c && Summarise(c, res) in rows && q(Summarise(c, res))
  {
    c := PointInChunk(rows, points, chunks, res, x);
  }

  lemma RowCoversPoints(
      rows: seq<Row>, points: seq<Point>, chunks: seq<seq<Point>>, res: int, p: Point -> bool, q: Row -> bool, r: Row)
      returns (c: seq<Point>)
    requires IsRollup(rows, points, chunks, res) && Agree(chunks, res, p, q)
    requires r in rows && q(r)
    ensures c in chunks && r == Summarise(c, res)
    ensures forall x :: x in c ==> x in points && p(x)
  {
    c := ChunkOfRow(rows, points, chunks, res, r);
  }

  lemma MinAttained(c: seq<Point>, f: Point -> real, m: real) returns (x: Point)
    requires MinIf(c, Any(), f) == Some(m)
    ensures x in c && f(x) == m
  {
    x :| x in c && Any()(x) && f(x) == m;
  }

  lemma MinBounds(c: seq<Point>, f: Point -> real, m: real, x: Point)
    requires MinIf(c, Any(), f) == Some(m) && x in c
    ensures m <= f(x)
  {
    assert Any()(x);
  }

  lemma MinOverRollup(
      rows: seq<Row>, points: seq<Point>, chunks: seq<seq<Point>>, res: int, p: Point -> bool, q: Row -> bool,
      f: Point -> real, g: Row -> real)
    requires IsRollup(rows, points, chunks, res) && Agree(chunks, res, p, q)
    requires forall c :: c in chunks ==> Some(g(Summarise(c, res))) == MinIf(c, Any(), f)
    ensures MinIf(points, p, f) == MinIf(rows, q, g)
  {
    if MinIf(rows, q, g).Some? {
      RowMinAbove(rows, points, chunks, res, p, q, f, g);
    }
    if MinIf(points, p, f).Some? {
      PointMinAbove(rows, points, chunks, res, p, q, f, g);
    }
  }

  lemma RowMinAbove(
      rows: seq<Row>, points: seq<Point>, chunks: seq<seq<Point>>, res: int, p: Point -> bool, q: Row -> bool,
      f: Point -> real, g: Row -> real)
    requires IsRollup(rows, points, chunks, res) && Agree(chunks, res, p, q)
    requires forall c :: c in chunks ==> Some(g(Summarise(c, res))) == MinIf(c, Any(), f)
    requires MinIf(rows, q, g).Some?
    ensures MinIf(points, p, f).Some? && MinIf(points, p, f).value <= MinIf(rows, q, g).value
  {
    var b := MinIf(rows, q, g).value;
    var r :| r in rows && q(r) && g(r) == b;
    var c := RowCoversPoints(rows, points, chunks, res, p, q, r);
    var x := MinAttained(c, f, b);
    assert x in points && p(x);
  }

  lemma PointMinAbove(
      rows: seq<Row>, points: seq<Point>, chunks: seq<seq<Point>>, res: int, p: Point -> bool, q: Row -> bool,
      f: Point -> real, g: Row -> real)
    requires IsRollup(rows, points, chunks, res) && Agree(chunks, res, p, q)
    requires forall c :: c in chunks ==> Some(g(Summarise(c, res))) == MinIf(c, Any(), f)
    requires MinIf(points, p, f).Some?
    ensures MinIf(rows, q, g).Some? && MinIf(rows, q, g).value <= MinIf(points, p, f).value
  {
    var a := MinIf(points, p, f).value;
    var x :| x in points && p(x) && f(x) == a;
    var c := PointAboveRow(rows, points, chunks, res, p, q, x);
    var r := Summarise(c, res);
    MinBounds(c, f, g(r), x);
    assert r in rows && q(r);
  }

  /** Two selected points with the same time stamp carry the same value. */
  ghost predicate LastIsDefinite(points: seq<Point>, p: Point -> bool) {
    forall x, y :: x in points && y in points && p(x) && p(y) && x.ts == y.ts ==> x.value == y.value
  }

  lemma SummaryLast(c: seq<Point>, res: int) returns (y: Point)
    requires res > 0 && IsChunk(c, res)
    ensures y in c && PointLast()(y) == Summarise(c, res).last
    ensures forall x :: x in c ==> x.ts <= y.ts
  {
    assert c[0] in c && Any()(c[0]);
    var l := LastIf(c, Any(), PointLast()).value;
    y :| y in c && Any()(y) && PointLast()(y) == l;
    forall x | x in c ensures x.ts <= y.ts { assert Any()(x); }
  }

  lemma RowLastBelow(
      rows: seq<Row>, points: seq<Point>, chunks: seq<seq<Point>>, res: int, p: Point -> bool, q: Row -> bool)
      returns (y: Point)
    requires IsRollup(rows, points, chunks, res) && Agree(chunks, res, p, q)
    requires LastIf(rows, q, RowLast()).Some?
    ensures LastIf(rows, q, RowLast()) == Some(PointLast()(y))
    ensures y in points && p(y)
  {
    var l := LastIf(rows, q, RowLast()).value;
    var r :| r in rows && q(r) && RowLast()(r) == l;
    var c := RowCoversPoints(rows, points, chunks, res, p, q, r);
    y := SummaryLast(c, res);
  }

  lemma PointLastBelow(
      rows: seq<Row>, points: seq<Point>, chunks: seq<seq<Point>>, res: int, p: Point -> bool, q: Row -> bool, x: Point)
    requires IsRollup(rows, points, chunks, res) && Agree(chunks, res, p, q)
    requires x in points && p(x)
    ensures LastIf(rows, q, RowLast()).Some? && x.ts <= LastIf(rows, q, RowLast()).value.ts
  {
    var c := PointAboveRow(rows, points, chunks, res, p, q, x);
    var y := SummaryLast(c, res);
    var r := Summarise(c, res);
    assert r in rows && q(r) && RowLast()(r) == PointLast()(y);
  }

  lemma LastOverRollup(
      rows: seq<Row>, points: seq<Point>, chunks: seq<seq<Point>>, res: int, p: Point -> bool, q: Row -> bool)
    requires IsRollup(rows, points, chunks, res) && Agree(chunks, res, p, q)
    requires LastIsDefinite(points, p)
    ensures LastIf(points, p, PointLast()) == LastIf(rows, q, RowLast())
  {
    var a, b := LastIf(points, p, PointLast()), LastIf(rows, q, RowLast());
    if b.Some? {
      var y := RowLastBelow(rows, points, chunks, res, p, q);
      assert a.Some?;
      var x :| x in points && p(x) && PointLast()(x) == a.value;
      PointLastBelow(rows, points, chunks, res, p, q, x);
      assert x.ts == y.ts;
    } else if a.Some? {
      var x :| x in points && p(x) && PointLast()(x) == a.value;
      PointLastBelow(rows, points, chunks, res, p, q, x);
    }
  }

  // ----- Meaning is preserved -----

  /**
   * The raw statement a rollup answer stands for: the same filters, step and grouping, the raw
   * aggregate, and the window widened outward at the end and inward at the start to row boundaries:
   * `[Ceil(lo), Floor(hi) + resolution)`.
   */
  ghost function RawEquivalent(s: Select, raw: ValueExpr): Select
    requires s.tier.resolution > 0
  {
    var res := s.tier.resolution;
    s.(tier := TIERS[0], value := raw, count := CountOnes,
       lo := Ceil(s.lo, res), hi := Floor(s.hi, res) + res - 1)
  }

  /** No rollup row straddles two result buckets or the edge of the widened window. */
  lemma RowsAlign(s: Select, raw: ValueExpr, c: seq<Point>, x: Point)
    requires s.stepSecs > 0 && s.tier.resolution > 0 && StepOf(s) % s.tier.resolution == 0
    requires IsChunk(c, s.tier.resolution) && x in c
    ensures var r := Summarise(c, s.tier.resolution);
            var w := RawEquivalent(s, raw);
            && Selected(w, x.key, x.ts) == Selected(s, r.key, r.bucket)
            && GroupOf(w, x.key, x.ts) == GroupOf(s, r.key, r.bucket)
  {
    var res := s.tier.resolution;
    var b := Floor(x.ts, res);
    FloorIsMultiple(x.ts, res);
    FloorFloor(x.ts, res, StepOf(s));
    CeilAtMost(s.lo, res, b);
    FloorIsMultiple(s.lo + res - 1, res);
    FloorAtLeast(x.ts, res, Ceil(s.lo, res));
    FloorAtLeast(s.hi, res, b);
    FloorIsMultiple(s.hi, res);
    if b > Floor(s.hi, res) {
      MulStep(b, Floor(s.hi, res), res);
    }
  }

  lemma MulStep(a: int, b: int, m: int)
    requires m > 0 && a % m == 0 && b % m == 0 && a > b
    ensures a >= b + m
  {
    assert a - b == (a / m - b / m) * m;
    if a / m - b / m <= 0 { MulMono(a / m - b / m, 0, m); }
    MulMono(1, a / m - b / m, m);
  }

  lemma GroupAgrees(s: Select, raw: ValueExpr, chunks: seq<seq<Point>>, g: GroupKey)
    requires s.stepSecs > 0 && s.tier.resolution > 0 && StepOf(s) % s.tier.resolution == 0
    requires AreChunks(chunks, s.tier.resolution)
    ensures Agree(chunks, s.tier.resolution, PointIn(RawEquivalent(s, raw), g), RowIn(s, g))
  {
    forall c, x | c in chunks && x in c
      ensures PointIn(RawEquivalent(s, raw), g)(x) == RowIn(s, g)(Summarise(c, s.tier.resolution))
    {
      RowsAlign(s, raw, c, x);
    }
  }

  /** The two tables have the same groups. */
  lemma SameGroups(s: Select, raw: ValueExpr, rows: seq<Row>, points: seq<Point>, chunks: seq<seq<Point>>)
    requires s.stepSecs > 0 && s.tier.resolution > 0 && StepOf(s) % s.tier.resolution == 0
    requires IsRollup(rows, points, chunks, s.tier.resolution)
    ensures PointGroups(RawEquivalent(s, raw), points) == RowGroups(s, rows)
  {
    var w, res := RawEquivalent(s, raw), s.tier.resolution;
    forall g | g in PointGroups(w, points) ensures g in RowGroups(s, rows) {
      var x :| x in points && Selected(w, x.key, x.ts) && GroupOf(w, x.key, x.ts) == g;
      var c := PointInChunk(rows, points, chunks, res, x);
      RowsAlign(s, raw, c, x);
    }
    forall g | g in RowGroups(s, rows) ensures g in PointGroups(w, points) {
      var r :| r in rows && Selected(s, r.key, r.bucket) && GroupOf(s, r.key, r.bucket) == g;
      var c := ChunkOfRow(rows, points, chunks, res, r);
      assert c[0] in c;
      RowsAlign(s, raw, c, c[0]);
    }
  }

  /** In a group of the result the sample counts agree and are at least one. */
  lemma SameSamples(s: Select, raw: ValueExpr, rows: seq<Row>, points: seq<Point>, chunks: seq<seq<Point>>, g: GroupKey)
    requires s.stepSecs > 0 && s.tier.resolution > 0 && StepOf(s) % s.tier.resolution == 0
    requires IsRollup(rows, points, chunks, s.tier.resolution)
    requires g in PointGroups(RawEquivalent(s, raw), points)
    ensures SumIf(points, PointIn(RawEquivalent(s, raw), g), One())
         == SumIf(rows, RowIn(s, g), Samples()) >= 1.0
  {
    var p := PointIn(RawEquivalent(s, raw), g);
    GroupAgrees(s, raw, chunks, g);
    forall c | c in chunks
      ensures Samples()(Summarise(c, s.tier.resolution)) == SumIf(c, Any(), One())
    {
      CountIsLength(c);
    }
    SumOverRollup(rows, points, chunks, s.tier.resolution, p, RowIn(s, g),
      One(), Samples());
    var x :| x in points && p(x);
    CountAtLeastOne(points, p, x);
  }

  lemma {:induction false} CountAtLeastOne(s: seq<Point>, p: Point -> bool, x: Point)
    requires x in s && p(x)
    ensures SumIf(s, p, One()) >= 1.0
  {
    if s[0] == x {
      CountNonNegative(s[1..], p);
    } else {
      CountAtLeastOne(s[1..], p, x);
    }
  }

  lemma {:induction false} CountNonNegative(s: seq<Point>, p: Point -> bool)
    ensures SumIf(s, p, One()) >= 0.0
  {
    if s != [] { CountNonNegative(s[1..], p); }
  }

  /** The rewritten aggregate that answers for a raw one. */
  ghost predicate Rewrites(raw: ValueExpr, rolled: ValueExpr) {
    match raw
    case AvgValue => rolled.SumVOverSamples?
    case SumValue => rolled.SumSumV?
    case MinValue => rolled.MinMinV?
    case MaxValue => rolled.MaxMaxV?
    case ArgMaxValueTs => rolled.ArgMaxMergeLast?
    case _ => false
  }

  lemma PlannerRewrites(t: TierSpec, agg: string)
    requires agg in {"avg", "sum", "min", "max", "last"} && !t.raw
    ensures ValueExprFor(t, agg).Ok? && Rewrites(ValueExprFor(TIERS[0], agg).value, ValueExprFor(t, agg).value)
    ensures ValueExprFor(TIERS[0], agg).value.ArgMaxValueTs? <==> agg == "last"
  {
  }

  lemma SameMin(
      rows: seq<Row>, points: seq<Point>, chunks: seq<seq<Point>>, res: int, p: Point -> bool, q: Row -> bool)
    requires IsRollup(rows, points, chunks, res) && Agree(chunks, res, p, q)
    ensures MinIf(points, p, ValueOf()) == MinIf(rows, q, MinVOf())
  {
    forall c | c in chunks ensures Some(MinVOf()(Summarise(c, res))) == MinIf(c, Any(), ValueOf()) {
      assert c[0] in c && Any()(c[0]);
    }
    MinOverRollup(rows, points, chunks, res, p, q, ValueOf(), MinVOf());
  }

  lemma SummaryMax(c: seq<Point>, res: int)
    requires res > 0 && IsChunk(c, res)
    ensures Some(MinusMaxV()(Summarise(c, res))) == MinIf(c, Any(), MinusValue())
  {
    assert c[0] in c && Any()(c[0]);
    assert -Summarise(c, res).maxV == MinIf(c, Any(), MinusValue()).value;
  }

  lemma SameMax(
      rows: seq<Row>, points: seq<Point>, chunks: seq<seq<Point>>, res: int, p: Point -> bool, q: Row -> bool)
    requires IsRollup(rows, points, chunks, res) && Agree(chunks, res, p, q)
    ensures MinIf(points, p, MinusValue()) == MinIf(rows, q, MinusMaxV())
  {
    forall c | c in chunks ensures Some(MinusMaxV()(Summarise(c, res))) == MinIf(c, Any(), MinusValue()) {
      SummaryMax(c, res);
    }
    MinOverRollup(rows, points, chunks, res, p, q, MinusValue(), MinusMaxV());
  }

  lemma SameSum(
      rows: seq<Row>, points: seq<Point>, chunks: seq<seq<Point>>, res: int, p: Point -> bool, q: Row -> bool)
    requires IsRollup(rows, points, chunks, res) && Agree(chunks, res, p, q)
    ensures SumIf(points, p, ValueOf()) == SumIf(rows, q, SumVOf())
  {
    forall c | c in chunks ensures SumVOf()(Summarise(c, res)) == SumIf(c, Any(), ValueOf()) {
    }
    SumOverRollup(rows, points, chunks, res, p, q, ValueOf(), SumVOf());
  }

  lemma SameValue(
      raw: ValueExpr, rolled: ValueExpr, rows: seq<Row>, points: seq<Point>, chunks: seq<seq<Point>>, res: int,
      p: Point -> bool, q: Row -> bool)
    requires Rewrites(raw, rolled)
    requires IsRollup(rows, points, chunks, res) && Agree(chunks, res, p, q)
    requires SumIf(points, p, One()) == SumIf(rows, q, Samples()) >= 1.0
    requires raw.ArgMaxValueTs? ==> LastIsDefinite(points, p)
    ensures PointValue(raw, points, p) == RowValue(rolled, rows, q)
  {
    hide SumIf, MinIf, LastIf, IsRollup, Agree;
    match raw {
      case MinValue => SameMin(rows, points, chunks, res, p, q);
      case MaxValue => SameMax(rows, points, chunks, res, p, q);
      case ArgMaxValueTs => LastOverRollup(rows, points, chunks, res, p, q);
      case _ => SameSum(rows, points, chunks, res, p, q);
    }
  }

  lemma RewriteSound(
      s: Select, raw: ValueExpr, rows: seq<Row>, points: seq<Point>, chunks: seq<seq<Point>>)
    requires s.stepSecs > 0 && s.tier.resolution > 0 && StepOf(s) % s.tier.resolution == 0
    requires Rewrites(raw, s.value) && s.count == SumSamples
    requires IsRollup(rows, points, chunks, s.tier.resolution)
    requires raw.ArgMaxValueTs? ==> forall g :: LastIsDefinite(points, PointIn(RawEquivalent(s, raw), g))
    ensures EvalRows(s, rows) == EvalPoints(RawEquivalent(s, raw), points)
  {
    hide SumIf, PointValue, RowValue, Agree, PointIn, RowIn, LastIsDefinite, Rewrites, PointGroups, RowGroups;
    var w := RawEquivalent(s, raw);
    SameGroups(s, raw, rows, points, chunks);
    forall g | g in RowGroups(s, rows) ensures EvalRows(s, rows)[g] == EvalPoints(w, points)[g] {
      GroupAgrees(s, raw, chunks, g);
      SameSamples(s, raw, rows, points, chunks, g);
      SameValue(raw, s.value, rows, points, chunks, s.tier.resolution, PointIn(w, g), RowIn(s, g));
    }
  }

  /**
   * For every request the planner sends to a rollup table, every set of points and every rollup of
   * them, the rewritten aggregate gives, bucket by bucket, the value and the sample count of the raw
   * aggregate over the widened window.
   */
  lemma RollupPreservesMeaning(
      q: RangeQuery, now: int, b: Built, rows: seq<Row>, points: seq<Point>, chunks: seq<seq<Point>>, raw: ValueExpr)
    requires Answers(q, now, b) && !b.tier.raw
    requires q.agg in {"avg", "sum", "min", "max", "last"} && ValueExprFor(TIERS[0], q.agg) == Ok(raw)
    requires IsRollup(rows, points, chunks, b.tier.resolution)
    requires q.agg == "last" ==> forall g :: LastIsDefinite(points, PointIn(RawEquivalent(b.select, raw), g))
    ensures EvalRows(b.select, rows) == EvalPoints(RawEquivalent(b.select, raw), points)
  {
    StepIsWholeSeconds(q.from, q.to, now, q.maxPoints, b.tier, b.step);
    PlannerRewrites(b.tier, q.agg);
    assert StepOf(b.select) == b.step;
    RewriteSound(b.select, raw, rows, points, chunks);
  }
}

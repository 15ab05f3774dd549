/** When `LIMIT maxPoints*20` can and cannot cut an ungrouped range result. */
module RowBudget {
  import opened Prelude
  import opened Arith
  import opened MetricTiers
  import opened Rollup

  /** How many result buckets the statement's range touches. */
  function Touched(s: Select): int
    requires s.stepSecs > 0
  {
    s.hi / (s.stepSecs * SECOND) - s.lo / (s.stepSecs * SECOND) + 1
  }

  /** The result keys of a range of bucket numbers and a set of series labels. */
  ghost function Cells(first: int, last: int, step: int, labels: set<Option<nat>>): set<GroupKey> {
    set k: int, l | first <= k <= last && l in labels :: GroupKey(k * step, l)
  }

  ghost function Layer(t: int, labels: set<Option<nat>>): set<GroupKey> { set l | l in labels :: GroupKey(t, l) }

  lemma {:induction false} LayerCount(t: int, labels: set<Option<nat>>)
    ensures |Layer(t, labels)| == |labels|
  {
    if labels == {} {
      assert Layer(t, labels) == {};
    } else {
      var l :| l in labels;
      LayerCount(t, labels - {l});
      assert Layer(t, labels) == Layer(t, labels - {l}) + {GroupKey(t, l)};
    }
  }

  lemma {:induction false} CellCount(first: int, last: int, step: int, labels: set<Option<nat>>)
    requires step > 0
    ensures |Cells(first, last, step, labels)| == Max(0, last - first + 1) * |labels|
    decreases last - first
  {
    if first <= last {
      hide Cells, Layer;
      LastLayer(first, last, step, labels);
      CellCount(first, last - 1, step, labels);
      LayerCount(last * step, labels);
      OneMore(last - first, |labels|);
    } else {
      assert Cells(first, last, step, labels) == {};
    }
  }

  lemma OneMore(n: nat, m: nat)
    ensures Max(0, n + 1) * m == Max(0, n) * m + m
  {
  }

  lemma LastLayer(first: int, last: int, step: int, labels: set<Option<nat>>)
    requires step > 0 && first <= last
    ensures Cells(first, last, step, labels) == Cells(first, last - 1, step, labels) + Layer(last * step, labels)
    ensures Cells(first, last - 1, step, labels) !! Layer(last * step, labels)
  {
    forall k: int | first <= k <= last - 1 ensures k * step != last * step { MulMono(1, last - k, step); }
  }

  lemma KeyInRange(s: Select, k: Key, t: int)
    requires s.stepSecs > 0 && !s.groupBySeries && Selected(s, k, t)
    ensures GroupOf(s, k, t) in Cells(s.lo / StepOf(s), s.hi / StepOf(s), StepOf(s), {None})
  {
    FloorIsMultiple(t, StepOf(s));
    DivMono(s.lo, t, StepOf(s));
    DivMono(t, s.hi, StepOf(s));
  }

  lemma SubsetCount<T>(a: set<T>, b: set<T>)
    requires a <= b
    ensures |a| <= |b|
  {
    assert b == a + (b - a);
  }

  /** An ungrouped result has no more rows than the range touches buckets. */
  lemma RowsWithinTouched(s: Select, points: seq<Point>, rows: seq<Row>)
    requires s.stepSecs > 0 && !s.groupBySeries
    ensures |EvalPoints(s, points).Keys| <= Max(0, Touched(s))
    ensures |EvalRows(s, rows).Keys| <= Max(0, Touched(s))
  {
    hide Cells, Selected, GroupOf;
    var all := Cells(s.lo / StepOf(s), s.hi / StepOf(s), StepOf(s), {None});
    CellCount(s.lo / StepOf(s), s.hi / StepOf(s), StepOf(s), {None});
    assert |all| == Max(0, Touched(s));
    forall p | p in points && Selected(s, p.key, p.ts) ensures GroupOf(s, p.key, p.ts) in all {
      KeyInRange(s, p.key, p.ts);
    }
    forall r | r in rows && Selected(s, r.key, r.bucket) ensures GroupOf(s, r.key, r.bucket) in all {
      KeyInRange(s, r.key, r.bucket);
    }
    SubsetCount(PointGroups(s, points), all);
    SubsetCount(RowGroups(s, rows), all);
    assert EvalPoints(s, points).Keys == PointGroups(s, points);
    assert EvalRows(s, rows).Keys == RowGroups(s, rows);
  }

  lemma SpanBound(from: int, to: int, step: int, m: int)
    requires step > 0 && m > 0 && to - from <= 2 * step * m
    ensures to / step - from / step <= 2 * m
  {
    DivMono(to, from + (2 * m) * step, step);
    DivUnique(from + (2 * m) * step, step, from / step + 2 * m, from % step);
  }

  lemma SecondsBound(from: int, to: int, secs: int, m: int)
    requires secs > 0 && m > 0 && to - from < 2 * (secs * SECOND) * m
    ensures ToSecond(to) - ToSecond(from) <= 2 * (secs * SECOND) * m
  {
    var k := 2 * secs * m;
    assert 2 * (secs * SECOND) * m == k * SECOND;
    FloorIsMultiple(from, SECOND);
    FloorIsMultiple(to, SECOND);
    SpanBoundSeconds(from, to, k);
  }

  lemma SpanBoundSeconds(from: int, to: int, k: int)
    requires to - from < k * SECOND
    ensures ToSecond(to) - ToSecond(from) <= k * SECOND
  {
  }

  lemma SpanBelowSteps(span: int, m: int, s: int)
    requires m > 0 && span / m < 2 * s
    ensures span < 2 * s * m
  {
    assert span == span / m * m + span % m;
    MulMono(span / m + 1, 2 * s, m);
  }

  /**
   * When some tier is eligible and the range fits a Go duration, the range touches at most
   * 2*maxPoints + 1 buckets.
   */
  lemma TouchedBound(q: RangeQuery, now: int, b: Built)
    requires Answers(q, now, b)
    requires SomeEligible(q.from, now)
    requires q.to - q.from <= MAX_INT64
    ensures Touched(b.select) <= 2 * EffectiveMaxPoints(q.maxPoints) + 1
  {
    var s, m := b.select, EffectiveMaxPoints(q.maxPoints);
    StepIsWholeSeconds(q.from, q.to, now, q.maxPoints, b.tier, b.step);
    var step := s.stepSecs * SECOND;
    var span := if Sub(q.to, q.from) <= 0 then MINUTE else Sub(q.to, q.from);
    SpanBelowSteps(span, m, step);
    assert q.to - q.from <= span;
    SecondsBound(q.from, q.to, s.stepSecs, m);
    SpanBound(s.lo, s.hi, step, m);
  }

  /**
   * So LIMIT never cuts an ungrouped result: for every request that some tier can answer, whose
   * range fits a Go duration and whose row limit fits an `int64`, and for every table.
   */
  lemma LimitNeverCuts(q: RangeQuery, now: int, b: Built, points: seq<Point>, rows: seq<Row>)
    requires Answers(q, now, b) && !q.groupBySeries
    requires SomeEligible(q.from, now)
    requires q.to - q.from <= MAX_INT64 && q.maxPoints * 20 <= MAX_INT64
    ensures |EvalPoints(b.select, points).Keys| <= b.select.limit
    ensures |EvalRows(b.select, rows).Keys| <= b.select.limit
  {
    TouchedBound(q, now, b);
    RowsWithinTouched(b.select, points, rows);
  }

  // ----- Exactly when LIMIT cuts -----

  /** The spacing of a table's time stamps: its resolution, or a nanosecond for raw points. */
  function Grid(s: Select): int { if s.tier.raw then 1 else s.tier.resolution }

  ghost predicate OnGrid(rows: seq<Row>, res: int)
    requires res > 0
  {
    forall r :: r in rows ==> r.bucket % res == 0
  }

  /** How many buckets hold a time stamp of the table that the range selects. */
  function CellRange(s: Select): (n: int)
    requires s.stepSecs > 0 && Grid(s) > 0
  {
    var first := Ceil(s.lo, Grid(s));
    if first > s.hi then 0 else s.hi / (s.stepSecs * SECOND) - first / (s.stepSecs * SECOND) + 1
  }

  /** A statement whose step is a whole number of grid steps, as the planner's are. */
  ghost predicate Aligned(s: Select) {
    s.stepSecs > 0 && Grid(s) > 0 && StepOf(s) % Grid(s) == 0
  }

  lemma PlansAreAligned(q: RangeQuery, now: int, b: Built)
    requires Answers(q, now, b)
    ensures Aligned(b.select) && b.select.tier == b.tier
  {
    StepIsWholeSeconds(q.from, q.to, now, q.maxPoints, b.tier, b.step);
  }

  /** The labels of a result over the series `ids`. */
  ghost function Labels(s: Select, ids: set<nat>): set<Option<nat>> {
    if s.groupBySeries then Somes(ids) else {None}
  }

  ghost function AllCells(s: Select, ids: set<nat>): set<GroupKey>
    requires Aligned(s)
  {
    Cells(Ceil(s.lo, Grid(s)) / StepOf(s), s.hi / StepOf(s), StepOf(s), Labels(s, ids))
  }

  /** The series of the stamps a statement can select lie in `ids`; without grouping they do not matter. */
  ghost predicate Within(s: Select, k: Key, ids: set<nat>) {
    s.groupBySeries && InScope(s, k) ==> k.series in ids
  }

  lemma StampCell(s: Select, ids: set<nat>, k: Key, t: int)
    requires Aligned(s) && Selected(s, k, t) && t % Grid(s) == 0 && Within(s, k, ids)
    ensures GroupOf(s, k, t) in AllCells(s, ids) && Ceil(s.lo, Grid(s)) <= s.hi
  {
    CeilAtMost(s.lo, Grid(s), t);
    FloorIsMultiple(t, StepOf(s));
    DivMono(Ceil(s.lo, Grid(s)), t, StepOf(s));
    DivMono(t, s.hi, StepOf(s));
  }

  /** An instant of the grid inside bucket `k` and inside the range. */
  lemma CellInstant(s: Select, k: int) returns (t: int)
    requires Aligned(s) && Ceil(s.lo, Grid(s)) <= s.hi
    requires Ceil(s.lo, Grid(s)) / StepOf(s) <= k <= s.hi / StepOf(s)
    ensures s.lo <= t <= s.hi && t % Grid(s) == 0 && Floor(t, StepOf(s)) == k * StepOf(s)
  {
    FloorIsMultiple(s.lo + Grid(s) - 1, Grid(s));
    t := InBucket(Ceil(s.lo, Grid(s)), s.hi, k, Grid(s), StepOf(s));
  }

  lemma InBucket(first: int, hi: int, k: int, grid: int, step: int) returns (t: int)
    requires grid > 0 && step > 0 && step % grid == 0 && first % grid == 0
    requires first <= hi && first / step <= k <= hi / step
    ensures first <= t <= hi && t % grid == 0 && Floor(t, step) == k * step
  {
    FloorIsMultiple(first, step);
    FloorIsMultiple(hi, step);
    if k == first / step {
      t := first;
    } else {
      t := k * step;
      MulDivMod(k, step);
      MultipleOfMultiple(t, grid, step);
      MulMono(first / step + 1, k, step);
      MulMono(k, hi / step, step);
    }
  }

  datatype Stamp = Stamp(key: Key, at: int)

  /** The stamps of a full table: selected, on the grid, of the series `ids`, and one for each of `cells`. */
  ghost predicate Fills(s: Select, ids: set<nat>, cells: set<GroupKey>, stamps: seq<Stamp>)
    requires Aligned(s)
  {
    && (forall p :: p in stamps ==>
          Selected(s, p.key, p.at) && p.at % Grid(s) == 0 && Within(s, p.key, ids) && GroupOf(s, p.key, p.at) in cells)
    && (forall g :: g in cells ==> exists p :: p in stamps && GroupOf(s, p.key, p.at) == g)
  }

  ghost predicate Usable(s: Select, k: Key, ids: set<nat>) {
    && InScope(s, k)
    && (s.groupBySeries ==> forall id :: id in ids ==> InScope(s, k.(series := id)))
  }

  lemma CellStamp(s: Select, k: Key, ids: set<nat>, g: GroupKey) returns (p: Stamp)
    requires Aligned(s) && Usable(s, k, ids) && Ceil(s.lo, Grid(s)) <= s.hi && g in AllCells(s, ids)
    ensures Selected(s, p.key, p.at) && p.at % Grid(s) == 0 && Within(s, p.key, ids)
    ensures GroupOf(s, p.key, p.at) == g
  {
    var i: int, l :| Ceil(s.lo, Grid(s)) / StepOf(s) <= i <= s.hi / StepOf(s) && l in Labels(s, ids)
      && g == GroupKey(i * StepOf(s), l);
    var t := CellInstant(s, i);
    p := Stamp(if l.Some? then k.(series := l.value) else k, t);
  }

  lemma {:induction false} FullStamps(s: Select, k: Key, ids: set<nat>, cells: set<GroupKey>)
      returns (stamps: seq<Stamp>)
    requires Aligned(s) && Usable(s, k, ids) && Ceil(s.lo, Grid(s)) <= s.hi && cells <= AllCells(s, ids)
    ensures Fills(s, ids, cells, stamps)
    decreases |cells|
  {
    hide AllCells, Selected, GroupOf, Within, Usable;
    if cells == {} {
      stamps := [];
    } else {
      var g :| g in cells;
      var rest := FullStamps(s, k, ids, cells - {g});
      var p := CellStamp(s, k, ids, g);
      stamps := rest + [p];
      assert p in stamps && forall x :: x in stamps <==> x in rest || x == p;
      forall h | h in cells ensures exists x :: x in stamps && GroupOf(s, x.key, x.at) == h {
        if h != g {
          assert h in cells - {g};
          var x :| x in rest && GroupOf(s, x.key, x.at) == h;
          assert x in stamps;
        }
      }
    }
  }

  ghost function RowAt(p: Stamp): Row { Row(p.key, p.at, 1, 0.0, 0.0, 0.0, Last(p.at, 0.0)) }

  ghost function PointAt(p: Stamp): Point { Point(p.key, p.at, 0.0) }

  /** A table of one row, and one of one point, for each stamp have exactly the filled cells as groups. */
  lemma StampTables(s: Select, ids: set<nat>, cells: set<GroupKey>, stamps: seq<Stamp>)
      returns (rows: seq<Row>, points: seq<Point>)
    requires Aligned(s) && Fills(s, ids, cells, stamps)
    ensures OnGrid(rows, Grid(s)) && RowGroups(s, rows) == cells && forall r :: r in rows ==> Within(s, r.key, ids)
    ensures PointGroups(s, points) == cells && forall p :: p in points ==> Within(s, p.key, ids)
  {
    hide Selected, GroupOf, Within;
    rows := seq(|stamps|, i requires 0 <= i < |stamps| => RowAt(stamps[i]));
    points := seq(|stamps|, i requires 0 <= i < |stamps| => PointAt(stamps[i]));
    forall p | p in stamps ensures RowAt(p) in rows && PointAt(p) in points {
      var i :| 0 <= i < |stamps| && stamps[i] == p;
      assert rows[i] == RowAt(p) && points[i] == PointAt(p);
    }
    forall r | r in rows ensures exists p :: p in stamps && r == RowAt(p) {
      var i :| 0 <= i < |rows| && rows[i] == r;
      assert stamps[i] in stamps;
    }
    forall x | x in points ensures exists p :: p in stamps && x == PointAt(p) {
      var i :| 0 <= i < |points| && points[i] == x;
      assert stamps[i] in stamps;
    }
  }

  function Width(s: Select, ids: set<nat>): nat { if s.groupBySeries then |ids| else 1 }

  /** The most groups that a table of the series `ids` can give. */
  function MostGroups(s: Select, ids: set<nat>): int
    requires s.stepSecs > 0 && Grid(s) > 0
  {
    CellRange(s) * Width(s, ids)
  }

  ghost predicate RowsWithin(s: Select, ids: set<nat>, rows: seq<Row>)
    requires Grid(s) > 0
  {
    OnGrid(rows, Grid(s)) && forall r :: r in rows ==> Within(s, r.key, ids)
  }

  ghost predicate PointsWithin(s: Select, ids: set<nat>, points: seq<Point>) {
    forall p :: p in points ==> Within(s, p.key, ids)
  }

  ghost function Somes(ids: set<nat>): set<Option<nat>> { set id | id in ids :: Some(id) }

  lemma {:induction false} SomeCount(ids: set<nat>)
    ensures |Somes(ids)| == |ids|
  {
    if ids == {} {
      assert Somes(ids) == {};
    } else {
      var i :| i in ids;
      var rest := Somes(ids - {i});
      SomeCount(ids - {i});
      assert Some(i) !in rest;
      assert Somes(ids) == rest + {Some(i)};
    }
  }

  lemma CellsAreMost(s: Select, ids: set<nat>)
    requires Aligned(s) && Ceil(s.lo, Grid(s)) <= s.hi
    ensures |AllCells(s, ids)| == MostGroups(s, ids)
  {
    var first, last := Ceil(s.lo, Grid(s)) / StepOf(s), s.hi / StepOf(s);
    CellCount(first, last, StepOf(s), Labels(s, ids));
    DivMono(Ceil(s.lo, Grid(s)), s.hi, StepOf(s));
    SomeCount(ids);
    assert |Labels(s, ids)| == Width(s, ids);
    hide Cells, Labels, Somes, Width;
    assert CellRange(s) == last - first + 1;
  }

  lemma AtMostMostGroups(s: Select, ids: set<nat>, rows: seq<Row>, points: seq<Point>)
    requires Aligned(s)
    ensures RowsWithin(s, ids, rows) ==> |EvalRows(s, rows).Keys| <= MostGroups(s, ids)
    ensures s.tier.raw && PointsWithin(s, ids, points) ==> |EvalPoints(s, points).Keys| <= MostGroups(s, ids)
  {
    hide Selected, GroupOf, Within, AllCells, MostGroups;
    assert EvalRows(s, rows).Keys == RowGroups(s, rows) && EvalPoints(s, points).Keys == PointGroups(s, points);
    if RowsWithin(s, ids, rows) {
      forall r | r in rows && Selected(s, r.key, r.bucket)
        ensures GroupOf(s, r.key, r.bucket) in AllCells(s, ids) && Ceil(s.lo, Grid(s)) <= s.hi
      {
        StampCell(s, ids, r.key, r.bucket);
      }
      GroupsWithin(s, ids, RowGroups(s, rows));
    }
    if s.tier.raw && PointsWithin(s, ids, points) {
      forall p | p in points && Selected(s, p.key, p.ts)
        ensures GroupOf(s, p.key, p.ts) in AllCells(s, ids) && Ceil(s.lo, Grid(s)) <= s.hi
      {
        StampCell(s, ids, p.key, p.ts);
      }
      GroupsWithin(s, ids, PointGroups(s, points));
    }
  }

  lemma GroupsWithin(s: Select, ids: set<nat>, groups: set<GroupKey>)
    requires Aligned(s) && forall g :: g in groups ==> g in AllCells(s, ids) && Ceil(s.lo, Grid(s)) <= s.hi
    ensures |groups| <= MostGroups(s, ids)
  {
    hide AllCells;
    if Ceil(s.lo, Grid(s)) <= s.hi {
      CellsAreMost(s, ids);
      SubsetCount(groups, AllCells(s, ids));
    } else {
      assert groups == {};
    }
  }

  lemma MostGroupsReached(s: Select, k: Key, ids: set<nat>) returns (rows: seq<Row>, points: seq<Point>)
    requires Aligned(s) && Usable(s, k, ids)
    ensures RowsWithin(s, ids, rows) && |EvalRows(s, rows).Keys| == MostGroups(s, ids)
    ensures PointsWithin(s, ids, points) && |EvalPoints(s, points).Keys| == MostGroups(s, ids)
  {
    hide Selected, GroupOf, Within, AllCells, Usable;
    if Ceil(s.lo, Grid(s)) <= s.hi {
      var stamps := FullStamps(s, k, ids, AllCells(s, ids));
      rows, points := StampTables(s, ids, AllCells(s, ids), stamps);
      CellsAreMost(s, ids);
    } else {
      rows, points := [], [];
      assert RowGroups(s, rows) == {} && PointGroups(s, points) == {};
    }
    assert EvalRows(s, rows).Keys == RowGroups(s, rows) && EvalPoints(s, points).Keys == PointGroups(s, points);
  }

  ghost predicate CutRows(s: Select, ids: set<nat>, rows: seq<Row>)
    requires Aligned(s)
  {
    RowsWithin(s, ids, rows) && |EvalRows(s, rows).Keys| > s.limit
  }

  ghost predicate CutPoints(s: Select, ids: set<nat>, points: seq<Point>)
    requires Aligned(s)
  {
    PointsWithin(s, ids, points) && |EvalPoints(s, points).Keys| > s.limit
  }

  /** Some table of the series `ids` loses groups to LIMIT. */
  ghost predicate CanCut(s: Select, ids: set<nat>)
    requires Aligned(s)
  {
    if s.tier.raw then exists points :: CutPoints(s, ids, points) else exists rows :: CutRows(s, ids, rows)
  }

  /**
   * Exactly when LIMIT cuts, for every plan, whatever the range, the tier and the grouping: some table
   * gives more groups than the limit if and only if the buckets that hold a selectable time stamp, times
   * the number of series when grouping by series, exceed the limit. Rollup tables have their rows on the
   * tier's grid; raw points lie anywhere. `k` is any key in scope, and `ids` are the table's series.
   */
  lemma LimitCutsExactly(q: RangeQuery, now: int, b: Built, k: Key, ids: set<nat>)
    requires Answers(q, now, b) && Usable(b.select, k, ids)
    ensures Aligned(b.select)
    ensures CanCut(b.select, ids) <==> MostGroups(b.select, ids) > b.select.limit
  {
    var s := b.select;
    PlansAreAligned(q, now, b);
    hide Answers, RowsWithin, PointsWithin, MostGroups, EvalRows, EvalPoints, Usable, Aligned;
    var rows, points := MostGroupsReached(s, k, ids);
    if MostGroups(s, ids) > s.limit {
      assert CutRows(s, ids, rows) && CutPoints(s, ids, points);
    }
    forall r | CutRows(s, ids, r) ensures MostGroups(s, ids) > s.limit { AtMostMostGroups(s, ids, r, []); }
    if s.tier.raw {
      forall p | CutPoints(s, ids, p) ensures MostGroups(s, ids) > s.limit { AtMostMostGroups(s, ids, [], p); }
    }
  }

  lemma CellsWithinTouched(s: Select)
    requires Aligned(s)
    ensures CellRange(s) <= Max(0, Touched(s))
  {
    var first := Ceil(s.lo, Grid(s));
    DivMono(s.lo, first, StepOf(s));
    if first <= s.hi { DivMono(s.lo, s.hi, StepOf(s)); }
  }

  /**
   * Grouped by series, with some tier eligible and a range that fits a Go duration, LIMIT never cuts the
   * result for n series when n * (2*maxPoints + 1) is at most 20*maxPoints: up to six series always, and
   * up to nine from five points on.
   */
  lemma GroupedLimitNeverCuts(
      q: RangeQuery, now: int, b: Built, ids: set<nat>, rows: seq<Row>, points: seq<Point>)
    requires Answers(q, now, b) && q.groupBySeries
    requires SomeEligible(q.from, now)
    requires q.to - q.from <= MAX_INT64 && q.maxPoints * 20 <= MAX_INT64
    requires |ids| * (2 * EffectiveMaxPoints(q.maxPoints) + 1) <= 20 * EffectiveMaxPoints(q.maxPoints)
    ensures Aligned(b.select) && !CutRows(b.select, ids, rows)
    ensures b.tier.raw ==> !CutPoints(b.select, ids, points)
  {
    hide EvalRows, EvalPoints, Answers, CellRange, Touched, RowsWithin, PointsWithin, Aligned, SomeEligible,
         EffectiveMaxPoints;
    var s, m := b.select, EffectiveMaxPoints(q.maxPoints);
    PlansAreAligned(q, now, b);
    LimitOf(q, now, b);
    TouchedBound(q, now, b);
    CellsWithinTouched(s);
    AtMostMostGroups(s, ids, rows, points);
    FewSeries(CellRange(s), |ids|, m);
  }

  lemma LimitOf(q: RangeQuery, now: int, b: Built)
    requires Answers(q, now, b) && q.maxPoints * 20 <= MAX_INT64
    ensures b.select.limit == 20 * EffectiveMaxPoints(q.maxPoints)
    ensures b.select.groupBySeries == q.groupBySeries && b.select.seriesIDs == q.seriesIDs
  {
  }

  lemma FewSeries(cells: int, n: nat, m: int)
    requires m > 0 && cells <= 2 * m + 1 && n * (2 * m + 1) <= 20 * m
    ensures cells * n <= 20 * m
  {
    MulMono(cells, 2 * m + 1, n);
  }

  lemma UnnamedIsUsable(q: RangeQuery, now: int, b: Built, k: Key, ids: set<nat>)
    requires Answers(q, now, b) && InScope(b.select, k) && q.groupBySeries && q.seriesIDs == []
    ensures Usable(b.select, k, ids) && b.select.groupBySeries
  {
  }

  /**
   * Grouped by series without naming any, every limit is exceeded by some table, if the range holds a time
   * stamp at all.
   */
  lemma UnnamedSeriesExceedAnyLimit(q: RangeQuery, now: int, b: Built, k: Key)
    requires Answers(q, now, b) && InScope(b.select, k)
    requires q.groupBySeries && q.seriesIDs == []
    ensures Aligned(b.select)
    ensures CellRange(b.select) > 0 ==> exists ids :: CanCut(b.select, ids)
  {
    hide Answers, CellRange, Aligned, Usable, CutRows, CutPoints;
    var s := b.select;
    PlansAreAligned(q, now, b);
    var ids := FirstNumbers(if s.limit < 0 then 1 else s.limit + 1);
    UnnamedIsUsable(q, now, b, k, ids);
    LimitCutsExactly(q, now, b, k, ids);
    if CellRange(s) > 0 {
      MulMono(1, CellRange(s), |ids|);
      assert MostGroups(s, ids) > s.limit;
      assert CanCut(s, ids);
    }
  }

  lemma {:induction false} FirstNumbers(n: nat) returns (ids: set<nat>)
    ensures |ids| == n && forall i :: i in ids ==> i < n
  {
    ids := {};
    if n > 0 {
      ids := FirstNumbers(n - 1);
      ids := ids + {n - 1};
    }
  }

  /** Every row of the day table sits on a whole day. */
  ghost predicate OnWholeDays(rows: seq<Row>) { OnGrid(rows, DAY) }

  /** The first whole day in the range and the last. */
  function FirstDay(s: Select): int { Ceil(s.lo, DAY) / DAY }

  function LastDay(s: Select): int { s.hi / DAY }

  lemma NoTierPlan(q: RangeQuery, now: int, b: Built)
    requires Answers(q, now, b) && !SomeEligible(q.from, now)
    ensures Aligned(b.select) && !b.select.tier.raw && Grid(b.select) == DAY && b.select.stepSecs * SECOND == DAY
    ensures b.select.lo == ToSecond(q.from) && b.select.hi == ToSecond(q.to)
  {
  }

  lemma DayRange(s: Select)
    requires Aligned(s) && Grid(s) == DAY && s.stepSecs * SECOND == DAY
    ensures CellRange(s) == Max(0, LastDay(s) - FirstDay(s) + 1)
  {
    var first := Ceil(s.lo, DAY);
    FloorIsMultiple(s.lo + DAY - 1, DAY);
    FloorIsMultiple(s.hi, DAY);
    if first <= s.hi {
      DivMono(first, s.hi, DAY);
    } else {
      DivMono(s.hi, first, DAY);
      assert first / DAY * DAY == first && s.hi / DAY * DAY <= s.hi;
    }
  }

  /**
   * With no eligible tier the planner falls back to the day table whatever the range: some table
   * gives more rows than the limit exactly when the range holds
   * more whole days than 20 times `maxPoints`.
   */
  lemma NoTierCutsExactly(q: RangeQuery, now: int, b: Built, k: Key)
    requires Answers(q, now, b) && !q.groupBySeries && InScope(b.select, k)
    requires !SomeEligible(q.from, now) && q.maxPoints * 20 <= MAX_INT64
    ensures (exists rows :: OnWholeDays(rows) && |EvalRows(b.select, rows).Keys| > b.select.limit)
       <==> LastDay(b.select) - FirstDay(b.select) + 1 > b.select.limit
  {
    hide EvalRows, Answers, SomeEligible, EffectiveMaxPoints, FirstDay, LastDay, InScope;
    var s := b.select;
    NoTierPlan(q, now, b);
    LimitOf(q, now, b);
    LimitCutsExactly(q, now, b, k, {});
    DayRange(s);
    forall rows ensures CutRows(s, {}, rows) <==> OnWholeDays(rows) && |EvalRows(s, rows).Keys| > s.limit { }
  }

  lemma NothingRetained(from: int, now: int)
    requires Sub(now, from) > 1095 * DAY
    ensures !SomeEligible(from, now)
  {
    assert forall t :: t in TIERS ==> t.retention <= 1095 * DAY;
  }

  lemma LongRange(s: Select, days: nat)
    requires s.hi == s.lo + days * DAY && s.stepSecs * SECOND == DAY
    ensures Touched(s) == days + 1 && LastDay(s) - FirstDay(s) + 1 >= days
  {
    DivUnique(s.lo + days * DAY, DAY, s.lo / DAY + days, s.lo % DAY);
    DivUnique(s.lo + DAY, DAY, s.lo / DAY + 1, s.lo % DAY);
    DivMono(Ceil(s.lo, DAY), s.lo + DAY, DAY);
  }

  /**
   * For example any 1200 days whose start no tier retains, asked for in one point, touch 1201 buckets;
   * the limit is 20, and some table loses rows to it.
   */
  lemma NoTierCutsWitness(q: RangeQuery, now: int, b: Built, k: Key)
    requires q.to == q.from + 1200 * DAY && q.maxPoints == 1 && !q.groupBySeries && Sub(now, q.from) > 1095 * DAY
    requires Answers(q, now, b) && InScope(b.select, k)
    ensures !SomeEligible(q.from, now) && b.select.limit == 20 && Touched(b.select) == 1201
    ensures Aligned(b.select) && exists rows :: CutRows(b.select, {}, rows)
  {
    hide Answers, EvalRows, RowsWithin, InScope, SomeEligible, FirstDay, LastDay, Touched;
    var s := b.select;
    NothingRetained(q.from, now);
    NoTierPlan(q, now, b);
    LimitOf(q, now, b);
    WholeDaysApart(q.from, 1200);
    LongRange(s, 1200);
    LimitCutsExactly(q, now, b, k, {});
    DayRange(s);
  }

  lemma WholeDaysApart(t: int, days: nat)
    ensures ToSecond(t + days * DAY) == ToSecond(t) + days * DAY
  {
  }

  /**
   * The duration range matters: a range longer than a Go duration saturates the span, and with one
   * point requested any range 25 times as long gives a table that the limit cuts, although its start is
   * still retained.
   */
  lemma SaturatedSpanWitness(q: RangeQuery, now: int, b: Built, k: Key)
    requires q.to - q.from >= 25 * MAX_INT64 && q.maxPoints == 1 && !q.groupBySeries
    requires Sub(now, q.from) <= 1095 * DAY && Answers(q, now, b) && InScope(b.select, k)
    ensures SomeEligible(q.from, now)
    ensures Aligned(b.select) && !b.tier.raw && exists rows :: CutRows(b.select, {}, rows)
  {
    var s := b.select;
    SaturatedPlan(q, now, b);
    assert s.limit == 20 && s.groupBySeries == false;
    hide Answers, EvalRows, RowsWithin, SomeEligible;
    PlansAreAligned(q, now, b);
    LimitCutsExactly(q, now, b, k, {});
    ManyCells(s, 24, MAX_INT64);
  }

  lemma SaturatedPlan(q: RangeQuery, now: int, b: Built)
    requires q.to - q.from >= 25 * MAX_INT64 && q.maxPoints == 1 && Sub(now, q.from) <= 1095 * DAY
    requires Answers(q, now, b)
    ensures SomeEligible(q.from, now) && !b.tier.raw && Grid(b.select) == DAY
    ensures b.select.hi - b.select.lo >= 24 * MAX_INT64 + DAY
    ensures 0 < b.select.stepSecs * SECOND <= MAX_INT64
  {
    assert Eligible(TIERS[4], Sub(now, q.from));
    assert TIERS[4].resolution <= Target(q.from, q.to, 1);
    StepIsWholeSeconds(q.from, q.to, now, 1, b.tier, b.step);
  }

  lemma ManyCells(s: Select, n: nat, most: int)
    requires Aligned(s) && s.stepSecs * SECOND <= most && s.hi - s.lo >= n * most + Grid(s)
    ensures CellRange(s) > n
  {
    var step, first := s.stepSecs * SECOND, Ceil(s.lo, Grid(s));
    MulMono(step, most, n);
    DivUnique(first + n * step, step, first / step + n, first % step);
    DivMono(first + n * step, s.hi, step);
  }

  /**
   * Grouped by series, the limit matters for ordinary requests: for 500 named series over any retained
   * day, asked for in 500 points, some table loses groups to it.
   */
  lemma ManySeriesWitness(q: RangeQuery, now: int, b: Built, k: Key, ids: set<nat>)
    requires q.to == q.from + DAY && q.maxPoints == 500 && Sub(now, q.from) <= 30 * DAY
    requires q.groupBySeries && ids == (set id | id in q.seriesIDs) && |ids| == 500
    requires Answers(q, now, b) && InScope(b.select, k)
    ensures Aligned(b.select) && CanCut(b.select, ids)
  {
    NamedAreUsable(q, now, b, k, ids);
    DayPlan(q, now, b);
    hide Answers, Aligned, Usable, CanCut, InScope, CellRange;
    var s := b.select;
    PlansAreAligned(q, now, b);
    LimitOf(q, now, b);
    ManyCells(s, 400, DAY / 500);
    MulMono(401, CellRange(s), 500);
    LimitCutsExactly(q, now, b, k, ids);
  }

  lemma NamedAreUsable(q: RangeQuery, now: int, b: Built, k: Key, ids: set<nat>)
    requires Answers(q, now, b) && InScope(b.select, k) && ids == set id | id in q.seriesIDs
    ensures Usable(b.select, k, ids)
  {
  }

  lemma DayPlan(q: RangeQuery, now: int, b: Built)
    requires q.to == q.from + DAY && q.maxPoints == 500 && Sub(now, q.from) <= 30 * DAY && Answers(q, now, b)
    ensures b.select.stepSecs * SECOND <= DAY / 500 && Grid(b.select) <= DAY / 500
    ensures b.select.hi - b.select.lo == DAY
  {
    hide Sub, Target, IsPlan, Eligible, ValueExprFor, RowLimit;
    WholeDaysApart(q.from, 1);
    DayTarget(q.from, q.to, now);
    PlanFits(q.from, q.to, now, 500, b.tier, b.step);
    FloorIsMultiple(b.step, SECOND);
  }

  lemma DayTarget(from: int, to: int, now: int)
    requires to == from + DAY && Sub(now, from) <= 30 * DAY
    ensures Target(from, to, 500) == DAY / 500 && Eligible(TIERS[1], Sub(now, from))
  {
  }

  /** When the minute tier is eligible and fits the target, the plan does not exceed the target. */
  lemma PlanFits(from: int, to: int, now: int, maxPoints: int, tier: TierSpec, step: int)
    requires IsPlan(from, to, now, maxPoints, tier, step)
    requires Eligible(TIERS[1], Sub(now, from)) && MINUTE <= Target(from, to, maxPoints)
    ensures step <= Target(from, to, maxPoints) && (!tier.raw ==> tier.resolution <= Target(from, to, maxPoints))
  {
    assert TIERS[1].resolution == MINUTE;
    hide Sub, Target;
  }
}

/** Grouping the rows of a range query into series. */
module Grouping {
  import opened Strings
  import opened Sums
  import opened Names

  /** A result row of the range query. */
  datatype RangeRow = RangeRow(series: nat, bucket: string, value: real, samples: nat)

  datatype Point = Point(ts: string, value: real, samples: nat)

  datatype Series = Series(name: string, labels: map<string, string>, points: seq<Point>)

  type Labels = map<nat, map<string, string>>

  function PointOf(r: RangeRow): Point { Point(r.bucket, r.value, r.samples) }

  /** A missing series or label reads as empty, as in a Go map. */
  function LabelsOf(labels: Labels, series: nat): map<string, string> {
    if series in labels then labels[series] else map[]
  }

  function Decimal(n: nat): (s: string)
    ensures s != ""
  {
    var d := [(n % 10 + '0' as int) as char];
    if n < 10 then d else Decimal(n / 10) + d
  }

  function Key(labels: Labels, groupBy: string, r: RangeRow): string {
    if groupBy != "" then
      var l := LabelsOf(labels, r.series);
      if groupBy in l then l[groupBy] else ""
    else Decimal(r.series)
  }

  /** The labels a group shows: the grouping label alone, or the labels of its first row's series. */
  function Display(labels: Labels, groupBy: string, r: RangeRow): map<string, string> {
    if groupBy != "" then map[groupBy := Key(labels, groupBy, r)] else LabelsOf(labels, r.series)
  }

  /** The points of the rows with key `k`, in row order. */
  ghost function PointsOf(labels: Labels, groupBy: string, rows: seq<RangeRow>, k: string): seq<Point> {
    if rows == [] then []
    else
      var r := rows[|rows| - 1];
      PointsOf(labels, groupBy, rows[..|rows| - 1], k) + if Key(labels, groupBy, r) == k then [PointOf(r)] else []
  }

  /** The first row with key `k`. */
  ghost predicate IsFirst(labels: Labels, groupBy: string, rows: seq<RangeRow>, k: string, i: int) {
    && 0 <= i < |rows| && Key(labels, groupBy, rows[i]) == k
    && forall j :: 0 <= j < i ==> Key(labels, groupBy, rows[j]) != k
  }

  datatype Acc = Acc(labels: map<string, string>, points: seq<Point>)

  ghost predicate IsAcc(labels: Labels, groupBy: string, rows: seq<RangeRow>, k: string, a: Acc) {
    && a.points == PointsOf(labels, groupBy, rows, k)
    && exists i :: IsFirst(labels, groupBy, rows, k, i) && a.labels == Display(labels, groupBy, rows[i])
  }

  ghost predicate Groups(labels: Labels, groupBy: string, rows: seq<RangeRow>, byKey: map<string, Acc>) {
    && (forall k :: k in byKey <==> exists i :: 0 <= i < |rows| && Key(labels, groupBy, rows[i]) == k)
    && (forall k :: k in byKey ==> IsAcc(labels, groupBy, rows, k, byKey[k]))
  }

  lemma GroupsNext(labels: Labels, groupBy: string, rows: seq<RangeRow>, byKey: map<string, Acc>, r: RangeRow)
    requires Groups(labels, groupBy, rows, byKey)
    ensures var k := Key(labels, groupBy, r);
            var a := if k in byKey then byKey[k] else Acc(Display(labels, groupBy, r), []);
            Groups(labels, groupBy, rows + [r], byKey[k := a.(points := a.points + [PointOf(r)])])
  {
    hide Key, Display, PointsOf, IsAcc;
    var all, key := rows + [r], Key(labels, groupBy, r);
    var a := if key in byKey then byKey[key] else Acc(Display(labels, groupBy, r), []);
    var next := byKey[key := a.(points := a.points + [PointOf(r)])];
    forall k ensures k in next <==> exists i :: 0 <= i < |all| && Key(labels, groupBy, all[i]) == k {
      if k == key { assert all[|rows|] == r; }
      if k in byKey {
        var i :| 0 <= i < |rows| && Key(labels, groupBy, rows[i]) == k;
        assert all[i] == rows[i];
      }
    }
    forall k | k in next ensures IsAcc(labels, groupBy, all, k, next[k]) {
      if k in byKey {
        AccNext(labels, groupBy, rows, k, byKey[k], r);
      } else {
        AccFirst(labels, groupBy, rows, k, r);
        assert [] + [PointOf(r)] == [PointOf(r)];
      }
    }
  }

  lemma AccNext(labels: Labels, groupBy: string, rows: seq<RangeRow>, k: string, a: Acc, r: RangeRow)
    requires IsAcc(labels, groupBy, rows, k, a)
    ensures var next := if Key(labels, groupBy, r) == k then a.(points := a.points + [PointOf(r)]) else a;
            IsAcc(labels, groupBy, rows + [r], k, next)
  {
    hide Key, Display;
    var all := rows + [r];
    assert all[..|all| - 1] == rows && all[|rows|] == r;
    var i :| IsFirst(labels, groupBy, rows, k, i) && a.labels == Display(labels, groupBy, rows[i]);
    assert IsFirst(labels, groupBy, all, k, i) && all[i] == rows[i];
    assert a.points + [] == a.points;
  }

  lemma AccFirst(labels: Labels, groupBy: string, rows: seq<RangeRow>, k: string, r: RangeRow)
    requires Key(labels, groupBy, r) == k
    requires forall i :: 0 <= i < |rows| ==> Key(labels, groupBy, rows[i]) != k
    ensures IsAcc(labels, groupBy, rows + [r], k, Acc(Display(labels, groupBy, r), [PointOf(r)]))
  {
    hide Key, Display;
    var all := rows + [r];
    assert all[..|all| - 1] == rows && all[|rows|] == r;
    assert IsFirst(labels, groupBy, all, k, |rows|);
    NoPoints(labels, groupBy, rows, k);
  }

  lemma {:induction false} NoPoints(labels: Labels, groupBy: string, rows: seq<RangeRow>, k: string)
    requires forall i :: 0 <= i < |rows| ==> Key(labels, groupBy, rows[i]) != k
    ensures PointsOf(labels, groupBy, rows, k) == []
  {
    if rows != [] { NoPoints(labels, groupBy, rows[..|rows| - 1], k); }
  }

  /** One series for the whole result, or one per key, in strictly increasing key order. */
  ghost predicate IsGrouping(rows: seq<RangeRow>, groupBy: string, labels: Labels, out: seq<Series>) {
    && (forall i, j :: 0 <= i < j < |out| ==> Less(out[i].name, out[j].name))
    && (forall r :: r in rows ==> exists g :: g in out && g.name == Key(labels, groupBy, r))
    && (forall g :: g in out ==> IsAcc(labels, groupBy, rows, g.name, Acc(g.labels, g.points)))
  }

  method GroupRangeRows(rows: seq<RangeRow>, split: bool, groupBy: string, labels: Labels) returns (out: seq<Series>)
    ensures !split ==> |out| == 1 && out[0].name == "" && out[0].labels == map[] && |out[0].points| == |rows|
    ensures !split ==> forall i :: 0 <= i < |rows| ==>
      out[0].points[i] == Point(rows[i].bucket, rows[i].value, rows[i].samples)
    ensures split ==> IsGrouping(rows, groupBy, labels, out)
  {
    hide Key, Display, PointsOf, IsAcc, Less;
    if !split {
      var points := [];
      for i := 0 to |rows|
        invariant |points| == i && forall k :: 0 <= k < i ==> points[k] == PointOf(rows[k])
      {
        points := points + [PointOf(rows[i])];
      }
      return [Series("", map[], points)];
    }
    var byKey := CollectGroups(rows, groupBy, labels);
    var order := SortedKeys(byKey.Keys);
    out := [];
    for i := 0 to |order|
      invariant |out| == i
      invariant forall j :: 0 <= j < i ==>
        out[j] == Series(order[j], byKey[order[j]].labels, byKey[order[j]].points)
    {
      var k := order[i];
      out := out + [Series(k, byKey[k].labels, byKey[k].points)];
    }
    forall r | r in rows ensures exists g :: g in out && g.name == Key(labels, groupBy, r) {
      var i :| 0 <= i < |rows| && rows[i] == r;
      assert Key(labels, groupBy, r) in byKey;
      var j :| 0 <= j < |order| && order[j] == Key(labels, groupBy, r);
      assert out[j] in out;
    }
    forall g | g in out ensures IsAcc(labels, groupBy, rows, g.name, Acc(g.labels, g.points)) {
      var j :| 0 <= j < |out| && out[j] == g;
      assert order[j] in byKey && Acc(g.labels, g.points) == byKey[order[j]];
    }
  }

  method CollectGroups(rows: seq<RangeRow>, groupBy: string, labels: Labels) returns (byKey: map<string, Acc>)
    ensures Groups(labels, groupBy, rows, byKey)
  {
    hide Groups, Decimal;
    byKey := map[];
    NoGroups(labels, groupBy);
    assert rows[..0] == [];
    for i := 0 to |rows|
      invariant Groups(labels, groupBy, rows[..i], byKey)
    {
      var row := rows[i];
      var l := LabelsOf(labels, row.series);
      var key, display;
      if groupBy != "" {
        key := if groupBy in l then l[groupBy] else "";
        display := map[groupBy := key];
      } else {
        key, display := Decimal(row.series), l;
      }
      GroupsNext(labels, groupBy, rows[..i], byKey, row);
      assert rows[..i + 1] == rows[..i] + [row];
      var a := if key in byKey then byKey[key] else Acc(display, []);
      byKey := byKey[key := a.(points := a.points + [PointOf(row)])];
    }
    assert rows[..|rows|] == rows;
  }

  lemma NoGroups(labels: Labels, groupBy: string)
    ensures Groups(labels, groupBy, [], map[])
  {
  }

  // ----- Every row lands once -----

  function PointCount(g: Series): int { |g.points| }

  function NameOf(g: Series): string { g.name }

  function KeyFun(labels: Labels, groupBy: string): RangeRow -> string { (r: RangeRow) => Key(labels, groupBy, r) }

  lemma {:induction false} PointsCounted(labels: Labels, groupBy: string, rows: seq<RangeRow>, k: string)
    ensures |PointsOf(labels, groupBy, rows, k)| == KeySum(rows, KeyFun(labels, groupBy), k, Unit<RangeRow>)
  {
    if rows != [] {
      var before, r := rows[..|rows| - 1], rows[|rows| - 1];
      PointsCounted(labels, groupBy, before, k);
      KeySumSnoc(before, r, KeyFun(labels, groupBy), k, Unit<RangeRow>);
      assert rows == before + [r];
    }
  }

  /** The groups partition the rows: the points over all groups are as many as the rows. */
  lemma EveryRowOnce(rows: seq<RangeRow>, groupBy: string, labels: Labels, out: seq<Series>)
    requires IsGrouping(rows, groupBy, labels, out)
    ensures Sum(out, PointCount) == |rows|
  {
    hide Key, Less;
    var keys := seq(|out|, i requires 0 <= i < |out| => out[i].name);
    NamesDistinct(out);
    assert Distinct(keys);
    forall i | 0 <= i < |out|
      ensures PointCount(out[i]) == KeySum(rows, KeyFun(labels, groupBy), keys[i], Unit<RangeRow>)
    {
      assert out[i] in out;
      PointsCounted(labels, groupBy, rows, keys[i]);
    }
    forall r | r in rows ensures KeyFun(labels, groupBy)(r) in keys {
      var g :| g in out && g.name == Key(labels, groupBy, r);
      var i :| 0 <= i < |out| && out[i] == g;
      assert keys[i] == g.name;
    }
    SumOfGroups(rows, KeyFun(labels, groupBy), Unit<RangeRow>, out, NameOf, PointCount, keys);
    PartitionTotal(rows, KeyFun(labels, groupBy), keys, Unit<RangeRow>);
    SumOfUnits(rows);
  }

  lemma NamesDistinct(out: seq<Series>)
    requires forall i, j :: 0 <= i < j < |out| ==> Less(out[i].name, out[j].name)
    ensures forall i, j :: 0 <= i < j < |out| ==> out[i].name != out[j].name
  {
    forall i, j | 0 <= i < j < |out| ensures out[i].name != out[j].name {
      LessTrichotomy(out[i].name, out[j].name);
    }
  }

  // ----- Without a grouping label each series keeps to itself -----

  /** Decimal text reads back, so different series get different keys. */
  lemma {:induction false} DecimalRoundTrip(n: nat)
    ensures ReadDecimal(Decimal(n)) == n
  {
    var s := Decimal(n);
    if n >= 10 {
      DecimalRoundTrip(n / 10);
      assert s[..|s| - 1] == Decimal(n / 10);
    } else {
      assert s[..|s| - 1] == "";
    }
  }

  lemma SeriesKeptApart(labels: Labels, a: RangeRow, b: RangeRow)
    ensures Key(labels, "", a) == Key(labels, "", b) <==> a.series == b.series
  {
    DecimalRoundTrip(a.series);
    DecimalRoundTrip(b.series);
  }

  /** What a series calls a label: its value, or nothing when the series or the label is missing. */
  function LabelValue(labels: Labels, series: nat, name: string): string {
    if series in labels && name in labels[series] then labels[series][name] else ""
  }

  /**
   * Split by a label, a series is named by the value of its rows' label and shows that label alone;
   * split by nothing, it is named by a decimal that reads as its rows' series and shows that series' labels.
   */
  lemma SeriesShows(rows: seq<RangeRow>, groupBy: string, labels: Labels, out: seq<Series>, g: Series)
    requires IsGrouping(rows, groupBy, labels, out) && g in out
    ensures groupBy != "" ==> g.labels == map[groupBy := g.name]
    ensures groupBy != "" ==> exists r :: r in rows && LabelValue(labels, r.series, groupBy) == g.name
    ensures groupBy == "" ==>
      exists r :: r in rows && ReadDecimal(g.name) == r.series
                  && g.labels == if r.series in labels then labels[r.series] else map[]
  {
    var i :| IsFirst(labels, groupBy, rows, g.name, i) && g.labels == Display(labels, groupBy, rows[i]);
    assert rows[i] in rows;
    hide Decimal, ReadDecimal, IsGrouping;
    DecimalRoundTrip(rows[i].series);
  }

  /** Adding a row adds its point, in its place, to the series of its label value or of its decimal, and to no other. */
  lemma RowContributes(labels: Labels, groupBy: string, rows: seq<RangeRow>, r: RangeRow, k: string)
    ensures var here := if groupBy != "" then k == LabelValue(labels, r.series, groupBy) else k == Decimal(r.series);
            var own := if here then [Point(r.bucket, r.value, r.samples)] else [];
            PointsOf(labels, groupBy, rows + [r], k) == PointsOf(labels, groupBy, rows, k) + own
    ensures PointsOf(labels, groupBy, [], k) == []
  {
    assert (rows + [r])[..|rows|] == rows;
    hide Decimal;
  }

  // ----- Label columns -----

  /** A JSON value of a label column: a string or something else. */
  datatype Cell = Str(s: string) | Other

  ghost predicate Pairs(names: seq<Cell>, values: seq<Cell>, i: int, n: string) {
    0 <= i < |names| && i < |values| && names[i] == Str(n) && values[i].Str?
  }

  /** Position `k` is the last before `end` that pairs the name `n` with a value. */
  ghost predicate LastPair(names: seq<Cell>, values: seq<Cell>, end: int, k: int, n: string) {
    k < end && Pairs(names, values, k, n) && forall j :: k < j < end ==> !Pairs(names, values, j, n)
  }

  /** The later of two equal names wins; entries that are not strings, and names without a value, are skipped. */
  method ZipLabels(names: seq<Cell>, values: seq<Cell>) returns (out: map<string, string>)
    ensures forall n, i :: Pairs(names, values, i, n) ==> n in out
    ensures forall n :: n in out ==> exists k :: LastPair(names, values, |names|, k, n) && out[n] == values[k].s
  {
    out := map[];
    for i := 0 to |names|
      invariant forall n, k :: k < i && Pairs(names, values, k, n) ==> n in out
      invariant forall n :: n in out ==> exists k :: LastPair(names, values, i, k, n) && out[n] == values[k].s
    {
      ghost var before := out;
      if names[i].Str? && i < |values| {
        if values[i].Str? {
          assert Pairs(names, values, i, names[i].s);
          out := out[names[i].s := values[i].s];
        }
      }
      forall n | n in out ensures exists k :: LastPair(names, values, i + 1, k, n) && out[n] == values[k].s {
        if Pairs(names, values, i, n) {
          assert LastPair(names, values, i + 1, i, n);
        } else {
          var k :| LastPair(names, values, i, k, n) && before[n] == values[k].s;
          assert LastPair(names, values, i + 1, k, n);
        }
      }
    }
  }
}

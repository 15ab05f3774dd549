/** Merging external calls under their key: nothing is lost, and each triple keeps its own edge. */
module DepMerge {
  import opened Prelude
  import opened Sums
  import opened DepKeys

  function CallsOf(c: Call): int { c.calls }

  function ErrorsOf(c: Call): int { c.errors }

  function DurationOf(c: Call): int { c.totalDur }

  /** The merged aggregates `merge` of the accepted calls `seen`. */
  ghost predicate IsMerge(merge: map<string, Call>, seen: seq<Call>) {
    && (forall c :: c in seen ==> Accepted(c) && c.depType in DEP_TYPES && KeyOf(c) in merge)
    && (forall k :: k in merge ==> Aggregates(merge[k], k, seen))
  }

  /** `i` is the first call with key `k`. */
  ghost predicate FirstUnder(seen: seq<Call>, k: string, i: int) {
    0 <= i < |seen| && KeyOf(seen[i]) == k && forall j :: 0 <= j < i ==> KeyOf(seen[j]) != k
  }

  ghost predicate CarriesFirst(a: Call, k: string, seen: seq<Call>) {
    exists i :: FirstUnder(seen, k, i) && SameTriple(a, seen[i])
      && a.host == seen[i].host && a.port == seen[i].port && a.scheme == seen[i].scheme
  }

  /** `a` adds up the calls with key `k`, and carries the ends and the address of the first of them. */
  ghost predicate Aggregates(a: Call, k: string, seen: seq<Call>) {
    && a.calls == KeySum(seen, KeyOf, k, CallsOf)
    && a.errors == KeySum(seen, KeyOf, k, ErrorsOf)
    && a.totalDur == KeySum(seen, KeyOf, k, DurationOf)
    && KeyOf(a) == k
    && a.calls > 0
    && CarriesFirst(a, k, seen)
  }

  class Merger {
    var merge: map<string, Call>
    ghost var seen: seq<Call>

    constructor ()
      ensures IsMerge(merge, seen) && seen == []
    {
      merge, seen := map[], [];
    }

    method Add(c: Call)
      requires IsMerge(merge, seen) && c.depType in DEP_TYPES
      modifies this
      ensures IsMerge(merge, seen)
      ensures seen == old(seen) + if Accepted(c) then [c] else []
    {
      hide IsMerge, Aggregates, KeyOf, InvalidServiceName;
      if InvalidServiceName(c.from) || InvalidServiceName(c.target) || c.calls == 0 {
        assert old(seen) + [] == old(seen);
        return;
      }
      var key := KeyOf(c);
      if key in merge {
        var cur := merge[key];
        merge := merge[key := cur.(calls := cur.calls + c.calls, totalDur := cur.totalDur + c.totalDur,
                                   errors := cur.errors + c.errors)];
      } else {
        merge := merge[key := c];
      }
      seen := seen + [c];
      MergeOneMore(old(merge), old(seen), c, merge);
    }
  }

  lemma {:induction false} KeySumOfAbsent(seen: seq<Call>, k: string, w: Call -> int)
    requires forall c :: c in seen ==> KeyOf(c) != k
    ensures KeySum(seen, KeyOf, k, w) == 0
  {
    if seen != [] {
      assert seen[0] in seen;
      KeySumOfAbsent(seen[1..], k, w);
    }
  }

  lemma AggregatesOneMore(a: Call, k: string, seen: seq<Call>, c: Call)
    requires Aggregates(a, k, seen)
    ensures KeyOf(c) != k ==> Aggregates(a, k, seen + [c])
    ensures KeyOf(c) == k ==>
      Aggregates(a.(calls := a.calls + c.calls, totalDur := a.totalDur + c.totalDur, errors := a.errors + c.errors),
                 k, seen + [c])
  {
    KeySumSnoc(seen, c, KeyOf, k, CallsOf);
    KeySumSnoc(seen, c, KeyOf, k, ErrorsOf);
    KeySumSnoc(seen, c, KeyOf, k, DurationOf);
    CarriesFirstOneMore(a, k, seen, c);
  }

  lemma CarriesFirstOneMore(a: Call, k: string, seen: seq<Call>, c: Call)
    requires CarriesFirst(a, k, seen)
    ensures CarriesFirst(a, k, seen + [c])
    ensures forall b: Call :: SameTriple(b, a) && b.host == a.host && b.port == a.port && b.scheme == a.scheme ==>
      CarriesFirst(b, k, seen + [c])
  {
    hide KeyOf;
    var i :| FirstUnder(seen, k, i) && SameTriple(a, seen[i])
      && a.host == seen[i].host && a.port == seen[i].port && a.scheme == seen[i].scheme;
    assert FirstUnder(seen + [c], k, i) && (seen + [c])[i] == seen[i];
  }

  lemma AggregatesFirst(seen: seq<Call>, c: Call)
    requires forall d :: d in seen ==> KeyOf(d) != KeyOf(c)
    requires Accepted(c)
    ensures Aggregates(c, KeyOf(c), seen + [c])
  {
    KeySumSnoc(seen, c, KeyOf, KeyOf(c), CallsOf);
    KeySumSnoc(seen, c, KeyOf, KeyOf(c), ErrorsOf);
    KeySumSnoc(seen, c, KeyOf, KeyOf(c), DurationOf);
    KeySumOfAbsent(seen, KeyOf(c), CallsOf);
    KeySumOfAbsent(seen, KeyOf(c), ErrorsOf);
    KeySumOfAbsent(seen, KeyOf(c), DurationOf);
    assert (seen + [c])[|seen|] == c && SameTriple(c, c);
    assert FirstUnder(seen + [c], KeyOf(c), |seen|);
  }

  lemma MergeOneMore(merge: map<string, Call>, seen: seq<Call>, c: Call, merge': map<string, Call>)
    requires IsMerge(merge, seen) && Accepted(c) && c.depType in DEP_TYPES
    requires var k := KeyOf(c);
             merge' == merge[k := if k in merge
               then merge[k].(calls := merge[k].calls + c.calls, totalDur := merge[k].totalDur + c.totalDur,
                              errors := merge[k].errors + c.errors)
               else c]
    ensures IsMerge(merge', seen + [c])
  {
    hide Aggregates, Accepted, KeyOf;
    forall k | k in merge' ensures Aggregates(merge'[k], k, seen + [c]) {
      if k in merge { AggregatesOneMore(merge[k], k, seen, c); } else { AggregatesFirst(seen, c); }
    }
    forall d | d in seen + [c] ensures Accepted(d) && d.depType in DEP_TYPES && KeyOf(d) in merge' {
      if d in seen { } else { assert d == c; }
    }
  }

  /** The calls of the accepted rows, in order. */
  function AcceptedCalls(rows: seq<DepRow>): (calls: seq<Call>)
    ensures forall c :: c in calls ==> Accepted(c) && c.depType in DEP_TYPES
  {
    if rows == [] then []
    else
      var before := AcceptedCalls(rows[..|rows| - 1]);
      var c := Normalise(rows[|rows| - 1]);
      if c.Some? && Accepted(c.value) then before + [c.value] else before
  }

  /** The rows that count, in order. */
  function CountedRows(rows: seq<DepRow>): (counted: seq<DepRow>) {
    if rows == [] then []
    else
      var before := CountedRows(rows[..|rows| - 1]);
      if Counted(rows[|rows| - 1]) then before + [rows[|rows| - 1]] else before
  }

  /** The accepted calls stand one for one for the rows that count. */
  lemma {:induction false} CallsOfRows(rows: seq<DepRow>)
    ensures var counted, calls := CountedRows(rows), AcceptedCalls(rows);
            && |calls| == |counted|
            && forall i :: 0 <= i < |counted| ==> counted[i] in rows && Normalise(counted[i]) == Some(calls[i])
  {
    hide Normalise, Accepted, Counted;
    if rows != [] {
      CallsOfRows(rows[..|rows| - 1]);
      CountedExactly(rows[|rows| - 1]);
    }
  }

  /** A sum over calls that stand one for one for rows is a sum over the rows. */
  lemma {:induction false} KeySumOfRows<K>(
      calls: seq<Call>, rows: seq<DepRow>, key: Call -> K, rowKey: DepRow -> K, k: K, w: Call -> int,
      rowW: DepRow -> int)
    requires |calls| == |rows|
    requires forall i :: 0 <= i < |rows| ==> key(calls[i]) == rowKey(rows[i]) && w(calls[i]) == rowW(rows[i])
    ensures KeySum(calls, key, k, w) == KeySum(rows, rowKey, k, rowW)
  {
    if rows != [] {
      forall i | 0 <= i < |rows[1..]|
        ensures key(calls[1..][i]) == rowKey(rows[1..][i]) && w(calls[1..][i]) == rowW(rows[1..][i])
      {
        assert calls[1..][i] == calls[i + 1] && rows[1..][i] == rows[i + 1];
      }
      KeySumOfRows(calls[1..], rows[1..], key, rowKey, k, w, rowW);
    }
  }

  lemma {:induction false} SumOfRows(calls: seq<Call>, rows: seq<DepRow>, w: Call -> int, rowW: DepRow -> int)
    requires |calls| == |rows|
    requires forall i :: 0 <= i < |rows| ==> w(calls[i]) == rowW(rows[i])
    ensures Sum(calls, w) == Sum(rows, rowW)
  {
    if rows != [] {
      forall i | 0 <= i < |rows[1..]| ensures w(calls[1..][i]) == rowW(rows[1..][i]) {
        assert calls[1..][i] == calls[i + 1] && rows[1..][i] == rows[i + 1];
      }
      SumOfRows(calls[1..], rows[1..], w, rowW);
    }
  }

  method MergeRows(rows: seq<DepRow>) returns (merge: map<string, Call>)
    ensures IsMerge(merge, AcceptedCalls(rows))
  {
    hide Aggregates, Accepted, Normalise;
    var m := new Merger();
    assert rows[..0] == [];
    for i := 0 to |rows|
      invariant IsMerge(m.merge, m.seen) && m.seen == AcceptedCalls(rows[..i])
      invariant fresh(m)
    {
      assert rows[..i + 1][..i] == rows[..i];
      var c := Normalise(rows[i]);
      if c.Some? {
        m.Add(c.value);
        assert m.seen == AcceptedCalls(rows[..i + 1]);
      }
    }
    assert rows[..|rows|] == rows;
    merge := m.merge;
  }

  // ----- Whose ends the merge shows -----

  /** The first call under each key: the calls whose ends the aggregates carry. */
  ghost function Leads(seen: seq<Call>): set<Call> {
    set i | 0 <= i < |seen| && FirstUnder(seen, KeyOf(seen[i]), i) :: seen[i]
  }

  ghost function MergedCallers(seen: seq<Call>): set<string> { set c | c in Leads(seen) :: c.from }

  ghost function MergedTargets(seen: seq<Call>): set<string> { set c | c in Leads(seen) :: c.target }

  lemma LeadOf(merge: map<string, Call>, seen: seq<Call>, k: string) returns (c: Call)
    requires IsMerge(merge, seen) && k in merge
    ensures c in Leads(seen) && SameTriple(merge[k], c)
  {
    hide KeyOf, KeySum, Accepted;
    assert CarriesFirst(merge[k], k, seen);
    var i :| FirstUnder(seen, k, i) && SameTriple(merge[k], seen[i]);
    c := seen[i];
  }

  lemma LeadMerged(merge: map<string, Call>, seen: seq<Call>, c: Call)
    requires IsMerge(merge, seen) && c in Leads(seen)
    ensures KeyOf(c) in merge && SameTriple(merge[KeyOf(c)], c)
  {
    hide KeyOf, KeySum, Accepted;
    var i :| 0 <= i < |seen| && FirstUnder(seen, KeyOf(seen[i]), i) && seen[i] == c;
    assert CarriesFirst(merge[KeyOf(c)], KeyOf(c), seen);
    var j :| FirstUnder(seen, KeyOf(c), j) && SameTriple(merge[KeyOf(c)], seen[j]);
    assert i == j;
  }

  /** The target that the call's aggregate shows: that of the first call under its key. */
  ghost function LeadTarget(seen: seq<Call>, c: Call): string {
    if seen == [] then c.target else if KeyOf(seen[0]) == KeyOf(c) then seen[0].target else LeadTarget(seen[1..], c)
  }

  lemma {:induction false} LeadTargetIsFirst(seen: seq<Call>, c: Call, i: nat)
    requires FirstUnder(seen, KeyOf(c), i)
    ensures LeadTarget(seen, c) == seen[i].target
  {
    hide KeyOf;
    if i > 0 {
      assert KeyOf(seen[0]) != KeyOf(c);
      assert forall j :: 0 <= j < i - 1 ==> seen[1..][j] == seen[j + 1];
      assert FirstUnder(seen[1..], KeyOf(c), i - 1);
      LeadTargetIsFirst(seen[1..], c, i - 1);
    }
  }

  lemma MergedTarget(merge: map<string, Call>, seen: seq<Call>, c: Call)
    requires IsMerge(merge, seen) && c in seen
    ensures merge[KeyOf(c)].target == LeadTarget(seen, c)
  {
    hide KeyOf, KeySum, Accepted, LeadTarget;
    assert CarriesFirst(merge[KeyOf(c)], KeyOf(c), seen);
    var i :| FirstUnder(seen, KeyOf(c), i) && SameTriple(merge[KeyOf(c)], seen[i]);
    LeadTargetIsFirst(seen, c, i);
  }

  /** The target of the first row with the row's merge key. */
  ghost function FirstTarget(rows: seq<DepRow>, row: DepRow): string {
    if rows == [] then RowTarget(row)
    else if RowKey(rows[0]) == RowKey(row) then RowTarget(rows[0]) else FirstTarget(rows[1..], row)
  }

  lemma {:induction false} LeadIsFirstRow(calls: seq<Call>, rows: seq<DepRow>, c: Call, row: DepRow)
    requires |calls| == |rows| && KeyOf(c) == RowKey(row) && c.target == RowTarget(row)
    requires forall i :: 0 <= i < |rows| ==>
      KeyOf(calls[i]) == RowKey(rows[i]) && calls[i].target == RowTarget(rows[i])
    ensures LeadTarget(calls, c) == FirstTarget(rows, row)
  {
    hide KeyOf, RowKey, RowTarget;
    if rows != [] {
      forall i | 0 <= i < |rows[1..]|
        ensures KeyOf(calls[1..][i]) == RowKey(rows[1..][i]) && calls[1..][i].target == RowTarget(rows[1..][i])
      {
        assert calls[1..][i] == calls[i + 1] && rows[1..][i] == rows[i + 1];
      }
      LeadIsFirstRow(calls[1..], rows[1..], c, row);
    }
  }

  ghost function Froms(merge: map<string, Call>): set<string> { set k | k in merge :: merge[k].from }

  ghost function Targets(merge: map<string, Call>): set<string> { set k | k in merge :: merge[k].target }

  /** The callers and targets of the aggregates are those of the leading calls. */
  lemma MergeEnds(merge: map<string, Call>, seen: seq<Call>)
    requires IsMerge(merge, seen)
    ensures Froms(merge) == MergedCallers(seen) && Targets(merge) == MergedTargets(seen)
  {
    hide KeyOf, IsMerge, Leads, Froms, Targets, MergedCallers, MergedTargets;
    forall k | k in merge ensures merge[k].from in MergedCallers(seen) && merge[k].target in MergedTargets(seen) {
      var c := LeadOf(merge, seen, k);
      LeadEnds(seen, c);
    }
    forall c | c in Leads(seen) ensures c.from in Froms(merge) && c.target in Targets(merge) {
      LeadMerged(merge, seen, c);
      AggregateShows(merge, KeyOf(c));
    }
    AggregateEndsWithin(merge, MergedCallers(seen), MergedTargets(seen));
    LeadEndsWithin(seen, Froms(merge), Targets(merge));
  }

  lemma LeadEnds(seen: seq<Call>, c: Call)
    requires c in Leads(seen)
    ensures c.from in MergedCallers(seen) && c.target in MergedTargets(seen)
  {
  }

  lemma AggregateShows(merge: map<string, Call>, k: string)
    requires k in merge
    ensures merge[k].from in Froms(merge) && merge[k].target in Targets(merge)
  {
  }

  lemma AggregateEndsWithin(merge: map<string, Call>, froms: set<string>, targets: set<string>)
    requires forall k :: k in merge ==> merge[k].from in froms && merge[k].target in targets
    ensures Froms(merge) <= froms && Targets(merge) <= targets
  {
  }

  lemma LeadEndsWithin(seen: seq<Call>, froms: set<string>, targets: set<string>)
    requires forall c :: c in Leads(seen) ==> c.from in froms && c.target in targets
    ensures MergedCallers(seen) <= froms && MergedTargets(seen) <= targets
  {
    hide Leads;
  }

  // ----- Conservation -----

  /** Some order of the map's keys. */
  ghost predicate ListsKeys(keys: seq<string>, merge: map<string, Call>) {
    Distinct(keys) && Elems(keys) == merge.Keys
  }

  ghost function Aggs(merge: map<string, Call>, keys: seq<string>): seq<Call>
    requires forall k :: k in keys ==> k in merge
  {
    seq(|keys|, i requires 0 <= i < |keys| => assert keys[i] in keys; merge[keys[i]])
  }

  lemma KeyInElems(keys: seq<string>, merge: map<string, Call>)
    requires ListsKeys(keys, merge)
    ensures forall k :: k in keys <==> k in merge
  {
    forall k ensures k in keys <==> k in merge { assert k in keys <==> k in Elems(keys); }
  }

  /** Calls, errors and durations over the merged aggregates equal those of the rows that count. */
  lemma MergeConserves(rows: seq<DepRow>, merge: map<string, Call>, keys: seq<string>)
    requires IsMerge(merge, AcceptedCalls(rows)) && ListsKeys(keys, merge)
    requires forall k :: k in keys ==> k in merge
    ensures Sum(Aggs(merge, keys), CallsOf) == Sum(CountedRows(rows), RowCalls)
    ensures Sum(Aggs(merge, keys), ErrorsOf) == Sum(CountedRows(rows), RowErrors)
    ensures Sum(Aggs(merge, keys), DurationOf) == Sum(CountedRows(rows), RowDuration)
  {
    hide Accepted, AcceptedCalls, CountedRows, KeyOf;
    var seen := AcceptedCalls(rows);
    KeyInElems(keys, merge);
    MergeConservesOne(merge, seen, keys, CallsOf);
    MergeConservesOne(merge, seen, keys, ErrorsOf);
    MergeConservesOne(merge, seen, keys, DurationOf);
    RowFigures(rows);
    SumOfRows(seen, CountedRows(rows), CallsOf, RowCalls);
    SumOfRows(seen, CountedRows(rows), ErrorsOf, RowErrors);
    SumOfRows(seen, CountedRows(rows), DurationOf, RowDuration);
  }

  /** The calls carry the figures, the targets and the merge keys of their rows. */
  lemma RowFigures(rows: seq<DepRow>)
    ensures var counted, calls := CountedRows(rows), AcceptedCalls(rows);
            && |calls| == |counted|
            && forall i :: 0 <= i < |counted| ==>
                 && CallsOf(calls[i]) == RowCalls(counted[i]) && ErrorsOf(calls[i]) == RowErrors(counted[i])
                 && DurationOf(calls[i]) == RowDuration(counted[i]) && calls[i].from == counted[i].service
                 && calls[i].target == RowTarget(counted[i]) && KeyOf(calls[i]) == RowKey(counted[i])
  {
    CallsOfRows(rows);
    hide Normalise, AcceptedCalls, CountedRows, RowTarget, RowType;
    var counted, calls := CountedRows(rows), AcceptedCalls(rows);
    forall i | 0 <= i < |counted|
      ensures CallsOf(calls[i]) == RowCalls(counted[i]) && ErrorsOf(calls[i]) == RowErrors(counted[i])
      ensures DurationOf(calls[i]) == RowDuration(counted[i]) && calls[i].from == counted[i].service
      ensures calls[i].target == RowTarget(counted[i]) && KeyOf(calls[i]) == RowKey(counted[i])
    {
      NormaliseFields(counted[i], calls[i]);
    }
  }

  lemma MergeConservesOne(merge: map<string, Call>, seen: seq<Call>, keys: seq<string>, w: Call -> int)
    requires Distinct(keys) && (forall k :: k in keys ==> k in merge)
    requires forall c :: c in seen ==> KeyOf(c) in keys
    requires forall k :: k in keys ==> KeyOf(merge[k]) == k && w(merge[k]) == KeySum(seen, KeyOf, k, w)
    ensures Sum(Aggs(merge, keys), w) == Sum(seen, w)
  {
    forall i | 0 <= i < |keys|
      ensures KeyOf(Aggs(merge, keys)[i]) == keys[i] && w(Aggs(merge, keys)[i]) == KeySum(seen, KeyOf, keys[i], w)
    {
      assert keys[i] in keys;
    }
    SumOfGroups(seen, KeyOf, w, Aggs(merge, keys), KeyOf, w, keys);
    PartitionTotal(seen, KeyOf, keys, w);
  }

  // ----- One aggregate per triple -----

  ghost function Callers(seen: seq<Call>): set<string> { set c | c in seen :: c.from }

  /** The sum of `w` over the calls with the same caller, target and type. */
  ghost function TripleSum(seen: seq<Call>, t: Call, w: Call -> int): int {
    if seen == [] then 0 else (if SameTriple(seen[0], t) then w(seen[0]) else 0) + TripleSum(seen[1..], t, w)
  }

  lemma {:induction false} KeySumIsTripleSum(seen: seq<Call>, t: Call, w: Call -> int)
    requires forall c :: c in seen ==> (KeyOf(c) == KeyOf(t) <==> SameTriple(c, t))
    ensures KeySum(seen, KeyOf, KeyOf(t), w) == TripleSum(seen, t, w)
  {
    if seen != [] {
      assert seen[0] in seen;
      KeySumIsTripleSum(seen[1..], t, w);
    }
  }

  /**
   * When no caller's name continues another's, every accepted (caller, target, type) has an
   * aggregate of its own that adds up exactly its calls, and no other aggregate carries it.
   */
  lemma OneAggregatePerTriple(merge: map<string, Call>, seen: seq<Call>, c: Call)
    requires IsMerge(merge, seen) && ArrowSafe(Callers(seen)) && c in seen
    ensures KeyOf(c) in merge && SameTriple(merge[KeyOf(c)], c)
    ensures forall k :: k in merge && SameTriple(merge[k], c) ==> k == KeyOf(c)
    ensures merge[KeyOf(c)].calls == TripleSum(seen, c, CallsOf)
    ensures merge[KeyOf(c)].errors == TripleSum(seen, c, ErrorsOf)
    ensures merge[KeyOf(c)].totalDur == TripleSum(seen, c, DurationOf)
  {
    hide InvalidServiceName, KeySum, TripleSum, Continues;
    forall d | d in seen ensures KeyOf(d) == KeyOf(c) <==> SameTriple(d, c) { SafeKeys(seen, c, d); }
    KeySumIsTripleSum(seen, c, CallsOf);
    KeySumIsTripleSum(seen, c, ErrorsOf);
    KeySumIsTripleSum(seen, c, DurationOf);
    AggregateEnds(merge, seen, c);
  }

  lemma SafeKeys(seen: seq<Call>, c: Call, d: Call)
    requires ArrowSafe(Callers(seen)) && c in seen && d in seen
    requires c.depType in DEP_TYPES && d.depType in DEP_TYPES
    ensures KeyOf(d) == KeyOf(c) <==> SameTriple(d, c)
  {
    assert d.from in Callers(seen) && c.from in Callers(seen);
    if KeyOf(d) == KeyOf(c) { KeyInjective(d, c); }
  }

  lemma AggregateEnds(merge: map<string, Call>, seen: seq<Call>, c: Call)
    requires IsMerge(merge, seen) && ArrowSafe(Callers(seen)) && c in seen
    ensures KeyOf(c) in merge && SameTriple(merge[KeyOf(c)], c)
    ensures forall k :: k in merge && SameTriple(merge[k], c) ==> k == KeyOf(c)
  {
    var a := merge[KeyOf(c)];
    var i :| FirstUnder(seen, KeyOf(c), i) && SameTriple(a, seen[i]);
    SafeKeys(seen, c, seen[i]);
  }

  /**
   * Without that, merging loses an edge: for any two valid callers of which one continues the other
   * there are two database rows, both accepted and with different ends, of which the merge keeps one.
   */
  lemma ArrowNamesCollide(f: string, g: string) returns (rows: seq<DepRow>)
    requires Continues(f, g) && !InvalidServiceName(f) && !InvalidServiceName(g)
    ensures var seen := AcceptedCalls(rows);
            && |rows| == |seen| == 2 && seen[0].from == f && seen[1].from == g && !SameTriple(seen[0], seen[1])
            && forall merge :: IsMerge(merge, seen) ==> merge.Keys == {KeyOf(seen[0])}
  {
    var r, s, a, b := CollidingRows(f, g);
    rows := [r, s];
    hide InvalidServiceName, Continues, Normalise, KeyOf, Accepted;
    assert rows[..1] == [r] && [r][..0] == [];
    assert AcceptedCalls([r]) == [a];
    assert AcceptedCalls(rows) == [a, b];
    forall merge | IsMerge(merge, [a, b]) ensures merge.Keys == {KeyOf(a)} { OnlyKey(a, b, merge); }
  }

  lemma OnlyKey(a: Call, b: Call, merge: map<string, Call>)
    requires IsMerge(merge, [a, b]) && KeyOf(a) == KeyOf(b)
    ensures merge.Keys == {KeyOf(a)}
  {
    hide Accepted, Aggregates, KeyOf;
    assert a in [a, b];
    forall k | k in merge ensures k == KeyOf(a) { KeyOfPair(merge[k], k, a, b); }
  }

  lemma KeyOfPair(x: Call, k: string, a: Call, b: Call)
    requires Aggregates(x, k, [a, b]) && KeyOf(a) == KeyOf(b)
    ensures k == KeyOf(a)
  {
    hide KeyOf, KeySum;
    var i :| FirstUnder([a, b], k, i);
  }
}

/** What the nodes of a service map say: health against edges, and rates against the rows behind them. */
module MapHealth {
  import opened Prelude
  import opened Sums
  import opened DepKeys
  import opened DepMerge
  import opened ServiceMap

  // ----- Health of external nodes -----

  /** A weighted sum whose rates all lie below a bound stays below the bound times the weight. */
  lemma {:induction false} WeightedBelow(edges: seq<Edge>, x: string, rate: Edge -> real, bound: real)
    requires forall e :: e in edges && e.to == x ==> rate(e) < bound
    ensures Weighted(edges, x, rate) <= bound * (Into(edges, x) as real)
    ensures Into(edges, x) > 0 ==> Weighted(edges, x, rate) < bound * (Into(edges, x) as real)
  {
    hide Weighted, Into;
    if edges == [] {
      NoEdges(x, rate);
    } else {
      var before, e := edges[..|edges| - 1], edges[|edges| - 1];
      assert forall d :: d in before ==> d in edges;
      WeightedBelow(before, x, rate, bound);
      LastEdge(edges, x, rate);
      if e.to == x {
        assert e in edges;
        AddBelow(Weighted(before, x, rate), bound, Into(before, x), rate(e), e.calls);
      }
    }
  }

  lemma AddBelow(w: real, bound: real, n: nat, r: real, c: nat)
    requires w <= bound * (n as real) && (n > 0 ==> w < bound * (n as real)) && r < bound
    ensures w + r * (c as real) <= bound * ((n + c) as real)
    ensures n + c > 0 ==> w + r * (c as real) < bound * ((n + c) as real)
  {
    MulBelow(r, bound, c);
    AddProducts(bound, n as real, c as real, (n + c) as real);
    SumBelow(w, bound * (n as real), r * (c as real), bound * (c as real), bound * ((n + c) as real));
  }

  lemma AddProducts(a: real, x: real, y: real, z: real)
    requires z == x + y
    ensures a * z == a * x + a * y
  {
  }

  lemma SumBelow(w: real, x: real, v: real, y: real, z: real)
    requires w <= x && v <= y && z == x + y
    ensures w + v <= z && (w < x || v < y ==> w + v < z)
  {
  }

  lemma MulBelow(a: real, b: real, n: nat)
    requires a < b
    ensures a * (n as real) <= b * (n as real)
    ensures n > 0 ==> a * (n as real) < b * (n as real)
  {
    assert (b - a) * (n as real) >= 0.0;
    if n > 0 { assert (b - a) * (n as real) > 0.0; }
  }

  lemma MeanBelow(edges: seq<Edge>, x: string, rate: Edge -> real, bound: real)
    requires forall e :: e in edges && e.to == x ==> rate(e) < bound
    requires Into(edges, x) > 0
    ensures Mean(edges, x, rate) < bound
  {
    WeightedBelow(edges, x, rate, bound);
    var n := Into(edges, x) as real;
    DivBelow(Weighted(edges, x, rate), bound, n);
  }

  lemma DivBelow(a: real, b: real, n: real)
    requires n > 0.0 && a < b * n
    ensures a / n < b
  {
    assert b == (b * n) / n;
    assert (b * n - a) / n > 0.0;
    assert b - a / n == (b * n - a) / n;
  }

  /** An external node always has traffic. */
  lemma {:induction false} IntoPositive(edges: seq<Edge>, e: Edge)
    requires e in edges && e.calls > 0
    ensures Into(edges, e.to) > 0
  {
    if edges[0] == e {
      CallsNonNegative(edges[1..], e.to);
    } else {
      IntoPositive(edges[1..], e);
    }
  }

  /** What holds of an external node of a map. */
  lemma ExternalFacts(t: Thresholds, x: Input, m: Map, w: Layout, n: Node)
    requires IsMap(t, x, m, w) && n in m.externalNodes
    ensures IsExternalNode(t, n, Edges(m)) && Into(Edges(m), n.id) > 0
    ensures forall e :: e in Edges(m) ==> e.health == CalcHealth(t, e.errorRate, e.avgLatency)
    ensures n.id in ExternalNames(x)
  {
    hide IsMerge, EdgesOfMerge, IsServiceNode, ShowsStats, SpanEdgesOf, ServiceNames, ExternalNames, IsExternalNode,
         Into, CalcHealth;
    var i :| 0 <= i < |m.externalNodes| && m.externalNodes[i] == n;
    assert w.externalOrder[i] in Elems(w.externalOrder);
    assert Reached(m.externalEdges, n.id);
    var e :| e in m.externalEdges && e.to == n.id && e.calls > 0;
    assert e in Edges(m);
    IntoPositive(Edges(m), e);
  }

  /**
   * For any thresholds: an external node is down only if some edge into it is down, and is healthy
   * if every edge into it is healthy.
   */
  lemma ExternalHealth(t: Thresholds, x: Input, m: Map, w: Layout, n: Node)
    requires IsMap(t, x, m, w) && n in m.externalNodes
    ensures n.health == Down ==> exists e :: e in Edges(m) && e.to == n.id && e.health == Down
    ensures (forall e :: e in Edges(m) && e.to == n.id ==> e.health == Healthy) ==> n.health == Healthy
  {
    hide IsMap, Mean, Weighted, Into, Edges;
    var edges := Edges(m);
    ExternalFacts(t, x, m, w, n);
    if forall e :: e in edges && e.to == n.id ==> e.health != Down {
      MeanBelow(edges, n.id, ErrorRate(), t.downError);
      MeanBelow(edges, n.id, Latency(), t.downLatency);
    }
    if forall e :: e in edges && e.to == n.id ==> e.health == Healthy {
      MeanBelow(edges, n.id, ErrorRate(), t.downError);
      MeanBelow(edges, n.id, Latency(), t.downLatency);
      MeanBelow(edges, n.id, ErrorRate(), t.degradedError);
      MeanBelow(edges, n.id, Latency(), t.degradedLatency);
    }
  }

  ghost function Times(r: real, n: int): real { r * (n as real) }

  lemma MeanTimes(edges: seq<Edge>, x: string, rate: Edge -> real)
    requires Into(edges, x) > 0
    ensures Times(Mean(edges, x, rate), Into(edges, x)) == Weighted(edges, x, rate)
  {
    hide Weighted, Into;
  }

  lemma MeanReaches(edges: seq<Edge>, x: string, rate: Edge -> real, bound: real)
    requires Into(edges, x) > 0
    ensures Mean(edges, x, rate) >= bound <==> Weighted(edges, x, rate) >= Times(bound, Into(edges, x))
  {
    hide Weighted, Into, Mean, Times;
    MeanTimes(edges, x, rate);
    TimesReaches(Mean(edges, x, rate), bound, Into(edges, x));
  }

  lemma TimesReaches(a: real, b: real, n: nat)
    requires n > 0
    ensures a >= b <==> Times(a, n) >= Times(b, n)
  {
    if a < b {
      MulBelow(a, b, n);
      assert Times(a, n) < Times(b, n);
    } else if b < a {
      MulBelow(b, a, n);
      assert Times(b, n) < Times(a, n);
    }
  }

  /** Totals of `calls` calls that reach a down threshold, and that stay below all thresholds. */
  ghost predicate ReachesDown(t: Thresholds, calls: int, errors: real, latency: real) {
    errors >= Times(t.downError, calls) || latency >= Times(t.downLatency, calls)
  }

  ghost predicate StaysHealthy(t: Thresholds, calls: int, errors: real, latency: real) {
    && !ReachesDown(t, calls, errors, latency)
    && errors < Times(t.degradedError, calls) && latency < Times(t.degradedLatency, calls)
  }

  /** The exact conditions on the weighted sums under which an external node is down, and healthy. */
  lemma ExternalHealthExactly(t: Thresholds, x: Input, m: Map, w: Layout, n: Node)
    requires IsMap(t, x, m, w) && n in m.externalNodes
    ensures var calls := Into(Edges(m), n.id);
            var errors, latency := Weighted(Edges(m), n.id, ErrorRate()), Weighted(Edges(m), n.id, Latency());
            && (n.health == Down <==> ReachesDown(t, calls, errors, latency))
            && (n.health == Healthy <==> StaysHealthy(t, calls, errors, latency))
  {
    hide IsMap, Weighted, Into, Edges, Mean, Times;
    ExternalFacts(t, x, m, w, n);
    MeanReaches(Edges(m), n.id, ErrorRate(), t.downError);
    MeanReaches(Edges(m), n.id, Latency(), t.downLatency);
    MeanReaches(Edges(m), n.id, ErrorRate(), t.degradedError);
    MeanReaches(Edges(m), n.id, Latency(), t.degradedLatency);
  }

  lemma {:induction false} WeightedReaches(edges: seq<Edge>, x: string, rate: Edge -> real, bound: real)
    requires forall e :: e in edges && e.to == x ==> rate(e) >= bound
    ensures Weighted(edges, x, rate) >= Times(bound, Into(edges, x))
  {
    ScaleSum(bound, 0, 0);
    hide Weighted, Into, Times;
    if edges == [] {
      NoEdges(x, rate);
    } else {
      var before, e := edges[..|edges| - 1], edges[|edges| - 1];
      assert forall d :: d in before ==> d in edges;
      WeightedReaches(before, x, rate, bound);
      LastEdge(edges, x, rate);
      LastEdgeTimes(edges, x, rate);
      if e.to == x {
        assert e in edges;
        AddReaches(Weighted(before, x, rate), bound, Into(before, x), rate(e), e.calls);
      }
    }
  }

  lemma AddReaches(w: real, bound: real, n: nat, r: real, c: nat)
    requires w >= Times(bound, n) && r >= bound
    ensures w + Times(r, c) >= Times(bound, n + c)
  {
    if r > bound { MulBelow(bound, r, c); }
    ScaleSum(bound, n, c);
  }

  /** When all edges into an external node reach the same down threshold, the node is down. */
  lemma CommonThresholdBringsDown(t: Thresholds, x: Input, m: Map, w: Layout, n: Node)
    requires IsMap(t, x, m, w) && n in m.externalNodes
    requires || (forall e :: e in Edges(m) && e.to == n.id ==> e.errorRate >= t.downError)
             || (forall e :: e in Edges(m) && e.to == n.id ==> e.avgLatency >= t.downLatency)
    ensures n.health == Down
  {
    hide IsMap, Weighted, Into, Edges, Times;
    ExternalHealthExactly(t, x, m, w, n);
    if forall e :: e in Edges(m) && e.to == n.id ==> e.errorRate >= t.downError {
      WeightedReaches(Edges(m), n.id, ErrorRate(), t.downError);
    } else {
      WeightedReaches(Edges(m), n.id, Latency(), t.downLatency);
    }
  }

  // ----- From rows to node: the external node's rates are those of its calls -----

  function TargetOf(c: Call): string { c.target }

  /** The keys, in order, whose aggregate goes to `x`. */
  ghost function KeysTo(merge: map<string, Call>, keys: seq<string>, x: string): seq<string>
    requires forall k :: k in keys ==> k in merge
  {
    if keys == [] then []
    else
      var k := keys[|keys| - 1];
      assert forall j :: j in keys[..|keys| - 1] ==> j in keys;
      KeysTo(merge, keys[..|keys| - 1], x) + if merge[k].target == x then [k] else []
  }

  lemma {:induction false} KeysToMembers(merge: map<string, Call>, keys: seq<string>, x: string)
    requires forall k :: k in keys ==> k in merge
    requires Distinct(keys)
    ensures forall k :: k in KeysTo(merge, keys, x) <==> k in keys && merge[k].target == x
    ensures Distinct(KeysTo(merge, keys, x))
  {
    if keys != [] {
      var before := keys[..|keys| - 1];
      assert forall j :: j in before ==> j in keys;
      KeysToMembers(merge, before, x);
      assert keys == before + [keys[|keys| - 1]];
    }
  }

  /** A weighted sum over edges that stand one for one for keys is a sum over those keys. */
  lemma {:induction false} WeightedIsSum(
      merge: map<string, Call>, seen: seq<Call>, keys: seq<string>, edges: seq<Edge>, x: string,
      rate: Edge -> real, w: Call -> int, scale: real)
    requires |edges| == |keys| && forall k :: k in keys ==> k in merge
    requires forall i :: 0 <= i < |keys| ==> keys[i] in merge && edges[i].to == merge[keys[i]].target
    requires forall i :: 0 <= i < |keys| ==>
      Times(rate(edges[i]), edges[i].calls) == Times(scale, KeySum(seen, KeyOf, keys[i], w))
    ensures Weighted(edges, x, rate) == Times(scale, SumOverKeys(seen, KeyOf, KeysTo(merge, keys, x), w))
  {
    hide KeySum, KeyOf, Weighted, KeysTo, SumOverKeys, Times;
    NoKeys(merge, seen, x);
    NoEdges(x, rate);
    ScaleSum(scale, 0, 0);
    if keys != [] {
      var n := |keys| - 1;
      assert forall j :: j in keys[..n] ==> j in keys;
      WeightedIsSum(merge, seen, keys[..n], edges[..n], x, rate, w, scale);
      KeysToLast(merge, keys, x);
      LastEdgeTimes(edges, x, rate);
      var kb := KeysTo(merge, keys[..n], x);
      SumOverKeysSnoc(seen, kb, keys[n], w);
      ScaleSum(scale, SumOverKeys(seen, KeyOf, kb, w), KeySum(seen, KeyOf, keys[n], w));
    }
  }

  lemma ScaleSum(s: real, a: int, b: int)
    ensures Times(s, a + b) == Times(s, a) + Times(s, b)
  {
  }

  lemma LastEdgeTimes(edges: seq<Edge>, x: string, rate: Edge -> real)
    requires edges != []
    ensures var before, e := edges[..|edges| - 1], edges[|edges| - 1];
            Weighted(edges, x, rate) == Weighted(before, x, rate) + (if e.to == x then Times(rate(e), e.calls) else 0.0)
  {
  }

  lemma {:induction false} IntoIsSum(
      merge: map<string, Call>, seen: seq<Call>, keys: seq<string>, edges: seq<Edge>, x: string)
    requires |edges| == |keys| && forall k :: k in keys ==> k in merge
    requires forall i :: 0 <= i < |keys| ==> keys[i] in merge && edges[i].to == merge[keys[i]].target
    requires forall i :: 0 <= i < |keys| ==> edges[i].calls == KeySum(seen, KeyOf, keys[i], CallsOf)
    ensures Into(edges, x) == SumOverKeys(seen, KeyOf, KeysTo(merge, keys, x), CallsOf)
  {
    hide KeySum, KeyOf, Into, KeysTo, SumOverKeys;
    NoKeys(merge, seen, x);
    NoEdges(x, Latency());
    if keys != [] {
      var n := |keys| - 1;
      assert forall j :: j in keys[..n] ==> j in keys;
      IntoIsSum(merge, seen, keys[..n], edges[..n], x);
      KeysToLast(merge, keys, x);
      LastEdge(edges, x, Latency());
      SumOverKeysSnoc(seen, KeysTo(merge, keys[..n], x), keys[n], CallsOf);
    }
  }

  /** Weighted sums over the external edges are sums over the aggregates. */
  lemma WeightedIsAggregates(
      t: Thresholds, merge: map<string, Call>, seen: seq<Call>, keys: seq<string>, edges: seq<Edge>, x: string)
    requires forall k :: k in keys ==> k in merge && Aggregates(merge[k], k, seen)
    requires |edges| == |keys|
    requires forall i :: 0 <= i < |keys| ==>
      keys[i] in merge && merge[keys[i]].calls > 0 && edges[i] == CallEdge(t, merge[keys[i]])
    ensures Into(edges, x) == SumOverKeys(seen, KeyOf, KeysTo(merge, keys, x), CallsOf)
    ensures Weighted(edges, x, ErrorRate()) == Times(100.0, SumOverKeys(seen, KeyOf, KeysTo(merge, keys, x), ErrorsOf))
    ensures Weighted(edges, x, Latency()) == Times(1.0, SumOverKeys(seen, KeyOf, KeysTo(merge, keys, x), DurationOf))
  {
    hide KeySum, CallEdge, KeyOf, Aggregates, Weighted, Into, KeysTo, SumOverKeys, Times;
    forall i | 0 <= i < |keys|
      ensures edges[i].to == merge[keys[i]].target && edges[i].calls == KeySum(seen, KeyOf, keys[i], CallsOf)
      ensures Times(ErrorRate()(edges[i]), edges[i].calls) == Times(100.0, KeySum(seen, KeyOf, keys[i], ErrorsOf))
      ensures Times(Latency()(edges[i]), edges[i].calls) == Times(1.0, KeySum(seen, KeyOf, keys[i], DurationOf))
    {
      assert keys[i] in keys;
      AggregateSums(merge[keys[i]], keys[i], seen);
      CallEdgeRates(t, merge[keys[i]]);
    }
    IntoIsSum(merge, seen, keys, edges, x);
    WeightedIsSum(merge, seen, keys, edges, x, ErrorRate(), ErrorsOf, 100.0);
    WeightedIsSum(merge, seen, keys, edges, x, Latency(), DurationOf, 1.0);
  }

  lemma NoKeys(merge: map<string, Call>, seen: seq<Call>, x: string)
    ensures KeysTo(merge, [], x) == []
    ensures forall w: Call -> int :: SumOverKeys(seen, KeyOf, [], w) == 0
  {
  }

  lemma CallEdgeRates(t: Thresholds, a: Call)
    requires a.calls > 0
    ensures var e := CallEdge(t, a);
            && e.to == a.target && e.calls == a.calls
            && Times(ErrorRate()(e), e.calls) == Times(100.0, a.errors)
            && Times(Latency()(e), e.calls) == Times(1.0, a.totalDur)
  {
  }

  lemma KeysToLast(merge: map<string, Call>, keys: seq<string>, x: string)
    requires keys != [] && (forall k :: k in keys ==> k in merge)
    requires forall k :: k in keys[..|keys| - 1] ==> k in merge
    ensures var k, kb := keys[|keys| - 1], KeysTo(merge, keys[..|keys| - 1], x);
            KeysTo(merge, keys, x) == if merge[k].target == x then kb + [k] else kb
  {
  }

  lemma AggregateSums(a: Call, k: string, seen: seq<Call>)
    requires Aggregates(a, k, seen)
    ensures a.calls == KeySum(seen, KeyOf, k, CallsOf)
    ensures a.errors == KeySum(seen, KeyOf, k, ErrorsOf)
    ensures a.totalDur == KeySum(seen, KeyOf, k, DurationOf)
  {
  }

  lemma {:induction false} SumOverKeysSnoc(seen: seq<Call>, keys: seq<string>, k: string, w: Call -> int)
    ensures SumOverKeys(seen, KeyOf, keys + [k], w) == SumOverKeys(seen, KeyOf, keys, w) + KeySum(seen, KeyOf, k, w)
  {
    if keys == [] {
      assert keys + [k] == [k] && [k][1..] == [];
    } else {
      SumOverKeysSnoc(seen, keys[1..], k, w);
      assert (keys + [k])[1..] == keys[1..] + [k];
    }
  }

  lemma {:induction false} InSumIsKeySum(
      s: seq<Call>, ks: set<string>, target: Call -> string, x: string, w: Call -> int)
    requires forall c :: c in s ==> (KeyOf(c) in ks <==> target(c) == x)
    ensures InSum(s, KeyOf, ks, w) == KeySum(s, target, x, w)
  {
    if s != [] {
      assert s[0] in s;
      InSumIsKeySum(s[1..], ks, target, x, w);
    }
  }

  /** A way to read off the target that a call's aggregate shows. */
  ghost predicate ReadsTarget(merge: map<string, Call>, seen: seq<Call>, target: Call -> string) {
    forall c :: c in seen ==> KeyOf(c) in merge && merge[KeyOf(c)].target == target(c)
  }

  /**
   * For every merge, the traffic into an external target is that of the accepted calls whose aggregate
   * shows it: the edges' weighted error rates and latencies add up to 100 times their errors and to their
   * total duration.
   */
  lemma MergedTraffic(
      t: Thresholds, merge: map<string, Call>, seen: seq<Call>, keys: seq<string>, edges: seq<Edge>,
      target: Call -> string, x: string)
    requires IsMerge(merge, seen) && EdgesOfMerge(t, merge, keys, edges) && ReadsTarget(merge, seen, target)
    ensures Into(edges, x) == KeySum(seen, target, x, CallsOf)
    ensures Weighted(edges, x, ErrorRate()) == Times(100.0, KeySum(seen, target, x, ErrorsOf))
    ensures Weighted(edges, x, Latency()) == Times(1.0, KeySum(seen, target, x, DurationOf))
  {
    hide Times, Aggregates, Weighted, Into, CallEdge, KeySum, Accepted, KeyOf;
    KeyInElems(keys, merge);
    WeightedIsAggregates(t, merge, seen, keys, edges, x);
    var kx := KeysTo(merge, keys, x);
    KeysToMembers(merge, keys, x);
    forall c | c in seen ensures KeyOf(c) in Elems(kx) <==> target(c) == x {
      assert KeyOf(c) in Elems(kx) <==> KeyOf(c) in kx;
    }
    PartitionSum(seen, KeyOf, kx, CallsOf);
    PartitionSum(seen, KeyOf, kx, ErrorsOf);
    PartitionSum(seen, KeyOf, kx, DurationOf);
    InSumIsKeySum(seen, Elems(kx), target, x, CallsOf);
    InSumIsKeySum(seen, Elems(kx), target, x, ErrorsOf);
    InSumIsKeySum(seen, Elems(kx), target, x, DurationOf);
  }

  /** When callers are arrow-safe that is the traffic of the accepted calls to the target. */
  lemma ExternalTraffic(
      t: Thresholds, merge: map<string, Call>, seen: seq<Call>, keys: seq<string>, edges: seq<Edge>, x: string)
    requires IsMerge(merge, seen) && EdgesOfMerge(t, merge, keys, edges) && ArrowSafe(Callers(seen))
    ensures Into(edges, x) == KeySum(seen, TargetOf, x, CallsOf)
    ensures Weighted(edges, x, ErrorRate()) == Times(100.0, KeySum(seen, TargetOf, x, ErrorsOf))
    ensures Weighted(edges, x, Latency()) == Times(1.0, KeySum(seen, TargetOf, x, DurationOf))
  {
    hide IsMerge, EdgesOfMerge, ArrowSafe, Times, Weighted, Into, KeySum, KeyOf;
    forall c | c in seen ensures KeyOf(c) in merge && merge[KeyOf(c)].target == TargetOf(c) {
      AggregateEnds(merge, seen, c);
    }
    MergedTraffic(t, merge, seen, keys, edges, TargetOf, x);
  }

  /** The traffic of two lists of edges is the sum of theirs. */
  lemma {:induction false} TrafficAppend(a: seq<Edge>, b: seq<Edge>, x: string, rate: Edge -> real)
    ensures Into(a + b, x) == Into(a, x) + Into(b, x)
    ensures Weighted(a + b, x, rate) == Weighted(a, x, rate) + Weighted(b, x, rate)
    decreases |b|
  {
    hide Weighted, Into;
    if b == [] {
      NoEdges(x, rate);
      assert a + b == a;
    } else {
      assert (a + b)[..|a + b| - 1] == a + b[..|b| - 1];
      TrafficAppend(a, b[..|b| - 1], x, rate);
      LastEdge(a + b, x, rate);
      LastEdge(b, x, rate);
    }
  }

  lemma {:induction false} NoTraffic(edges: seq<Edge>, x: string, rate: Edge -> real)
    requires forall e :: e in edges ==> e.to != x
    ensures Into(edges, x) == 0 && Weighted(edges, x, rate) == 0.0
  {
    hide Weighted, Into;
    if edges == [] {
      NoEdges(x, rate);
    } else {
      assert edges[|edges| - 1] in edges;
      NoTraffic(edges[..|edges| - 1], x, rate);
      LastEdge(edges, x, rate);
    }
  }

  // ----- Totals of an input, whatever its names -----

  function SpanErrors(): SpanRow -> real { (r: SpanRow) => r.errorRate }

  function SpanLatency(): SpanRow -> real { (r: SpanRow) => r.avgLatency }

  /** The calls of the valid span rows into `id`. */
  ghost function SpanCallsTo(rows: seq<SpanRow>, id: string): nat {
    if rows == [] then 0
    else
      var r := rows[|rows| - 1];
      SpanCallsTo(rows[..|rows| - 1], id) + if ValidSpan(r) && r.to == id then r.calls else 0
  }

  /** A rate of the valid span rows into `id`, weighted by their calls and added up. */
  ghost function SpanTotalTo(rows: seq<SpanRow>, id: string, rate: SpanRow -> real): real {
    if rows == [] then 0.0
    else
      var r := rows[|rows| - 1];
      SpanTotalTo(rows[..|rows| - 1], id, rate) + if ValidSpan(r) && r.to == id then Times(rate(r), r.calls) else 0.0
  }

  lemma {:induction false} SpanTraffic(t: Thresholds, rows: seq<SpanRow>, id: string)
    ensures Into(SpanEdgesOf(t, rows), id) == SpanCallsTo(rows, id)
    ensures Weighted(SpanEdgesOf(t, rows), id, ErrorRate()) == SpanTotalTo(rows, id, SpanErrors())
    ensures Weighted(SpanEdgesOf(t, rows), id, Latency()) == SpanTotalTo(rows, id, SpanLatency())
  {
    hide Into, Weighted, Times, ValidSpan, CalcHealth, SuccessRate;
    NoEdges(id, ErrorRate());
    NoEdges(id, Latency());
    if rows != [] {
      var before, r := rows[..|rows| - 1], rows[|rows| - 1];
      SpanTraffic(t, before, id);
      if ValidSpan(r) {
        var edges := SpanEdgesOf(t, rows);
        assert edges[..|edges| - 1] == SpanEdgesOf(t, before) && edges[|edges| - 1] == SpanEdge(t, r);
        LastEdge(edges, id, ErrorRate());
        LastEdgeTimes(edges, id, ErrorRate());
        LastEdgeTimes(edges, id, Latency());
      } else {
        assert SpanEdgesOf(t, rows) == SpanEdgesOf(t, before);
      }
    }
  }

  ghost function LeadTargetOf(seen: seq<Call>): Call -> string { (c: Call) => LeadTarget(seen, c) }

  ghost function FirstTargetOf(rows: seq<DepRow>): DepRow -> string { (r: DepRow) => FirstTarget(rows, r) }

  /**
   * All calls into a name: those of span rows, and those of the counted dependency rows whose aggregate
   * shows it, which is the target of the first row with their merge key.
   */
  ghost function AllCallsTo(x: Input, id: string): int {
    var rows := CountedRows(x.deps);
    SpanCallsTo(x.spans, id) + KeySum(rows, FirstTargetOf(rows), id, RowCalls)
  }

  /** The errors of all calls into a name, in percent points. */
  ghost function AllErrorsTo(x: Input, id: string): real {
    var rows := CountedRows(x.deps);
    SpanTotalTo(x.spans, id, SpanErrors()) + Times(100.0, KeySum(rows, FirstTargetOf(rows), id, RowErrors))
  }

  ghost function AllDurationTo(x: Input, id: string): real {
    var rows := CountedRows(x.deps);
    SpanTotalTo(x.spans, id, SpanLatency()) + Times(1.0, KeySum(rows, FirstTargetOf(rows), id, RowDuration))
  }

  /** The figures of the accepted calls under their lead targets are those of the counted rows. */
  lemma LeadTotals(deps: seq<DepRow>, id: string)
    ensures var seen, rows := AcceptedCalls(deps), CountedRows(deps);
            var lead, first := LeadTargetOf(seen), FirstTargetOf(rows);
            && KeySum(seen, lead, id, CallsOf) == KeySum(rows, first, id, RowCalls)
            && KeySum(seen, lead, id, ErrorsOf) == KeySum(rows, first, id, RowErrors)
            && KeySum(seen, lead, id, DurationOf) == KeySum(rows, first, id, RowDuration)
  {
    RowFigures(deps);
    hide AcceptedCalls, CountedRows, KeyOf, RowKey, RowTarget, LeadTarget, FirstTarget, KeySum;
    var seen, rows := AcceptedCalls(deps), CountedRows(deps);
    var lead, first := LeadTargetOf(seen), FirstTargetOf(rows);
    forall i | 0 <= i < |rows| ensures lead(seen[i]) == first(rows[i]) {
      LeadIsFirstRow(seen, rows, seen[i], rows[i]);
    }
    KeySumOfRows(seen, rows, lead, first, id, CallsOf, RowCalls);
    KeySumOfRows(seen, rows, lead, first, id, ErrorsOf, RowErrors);
    KeySumOfRows(seen, rows, lead, first, id, DurationOf, RowDuration);
  }

  lemma InputTraffic(t: Thresholds, x: Input, m: Map, w: Layout, id: string)
    requires IsMap(t, x, m, w)
    ensures Into(Edges(m), id) == AllCallsTo(x, id)
    ensures Weighted(Edges(m), id, ErrorRate()) == AllErrorsTo(x, id)
    ensures Weighted(Edges(m), id, Latency()) == AllDurationTo(x, id)
  {
    hide Times, IsMerge, EdgesOfMerge, EndsKnown, NodesFor, IsServiceNode, IsExternalNode, ShowsStats, SpanEdgesOf,
         ServiceNames, ExternalNames, AcceptedCalls, Weighted, Into, KeySum, CalcHealth, SpanCallsTo, SpanTotalTo,
         KeyOf, LeadTargetOf, FirstTargetOf, CountedRows;
    var seen := AcceptedCalls(x.deps);
    TrafficAppend(m.spanEdges, m.externalEdges, id, ErrorRate());
    TrafficAppend(m.spanEdges, m.externalEdges, id, Latency());
    SpanTraffic(t, x.spans, id);
    LeadTargetsRead(w.merge, seen);
    LeadTotals(x.deps, id);
    MergedTraffic(t, w.merge, seen, w.keys, m.externalEdges, LeadTargetOf(seen), id);
  }

  lemma LeadTargetsRead(merge: map<string, Call>, seen: seq<Call>)
    requires IsMerge(merge, seen)
    ensures ReadsTarget(merge, seen, LeadTargetOf(seen))
  {
    hide KeyOf, Aggregates, LeadTarget;
    forall c | c in seen ensures merge[KeyOf(c)].target == LeadTargetOf(seen)(c) { MergedTarget(merge, seen, c); }
  }

  /**
   * For every service map, whatever its names: an external node is down, and healthy, exactly when the
   * totals of its input reach, or stay below, the thresholds times its calls.
   */
  lemma HealthFromInput(t: Thresholds, x: Input, m: Map, w: Layout, n: Node)
    requires IsMap(t, x, m, w) && n in m.externalNodes
    ensures n.incoming == AllCallsTo(x, n.id) > 0
    ensures n.health == Down <==> ReachesDown(t, n.incoming, AllErrorsTo(x, n.id), AllDurationTo(x, n.id))
    ensures n.health == Healthy <==> StaysHealthy(t, n.incoming, AllErrorsTo(x, n.id), AllDurationTo(x, n.id))
  {
    hide IsMap, Weighted, Into, Edges, Mean, AllCallsTo, AllErrorsTo, AllDurationTo, ReachesDown, StaysHealthy;
    ExternalFacts(t, x, m, w, n);
    InputTraffic(t, x, m, w, n.id);
    ExternalHealthExactly(t, x, m, w, n);
  }

  // ----- Arrow-safe callers, and no span edge into the name -----

  /** The calls, errors and total duration of the counted rows of a target. */
  ghost function CallsTo(x: Input, id: string): int { KeySum(CountedRows(x.deps), RowTarget, id, RowCalls) }

  ghost function ErrorsTo(x: Input, id: string): int { KeySum(CountedRows(x.deps), RowTarget, id, RowErrors) }

  ghost function DurationTo(x: Input, id: string): int { KeySum(CountedRows(x.deps), RowTarget, id, RowDuration) }

  /** The callers of the counted rows. */
  ghost function RowCallers(x: Input): set<string> { set r | r in CountedRows(x.deps) :: r.service }

  lemma RowTotals(x: Input, id: string)
    ensures var seen := AcceptedCalls(x.deps);
            && KeySum(seen, TargetOf, id, CallsOf) == CallsTo(x, id)
            && KeySum(seen, TargetOf, id, ErrorsOf) == ErrorsTo(x, id)
            && KeySum(seen, TargetOf, id, DurationOf) == DurationTo(x, id)
    ensures Callers(AcceptedCalls(x.deps)) == RowCallers(x)
  {
    RowFigures(x.deps);
    hide AcceptedCalls, CountedRows, KeyOf, RowKey, RowTarget, KeySum;
    var seen, rows := AcceptedCalls(x.deps), CountedRows(x.deps);
    KeySumOfRows(seen, rows, TargetOf, RowTarget, id, CallsOf, RowCalls);
    KeySumOfRows(seen, rows, TargetOf, RowTarget, id, ErrorsOf, RowErrors);
    KeySumOfRows(seen, rows, TargetOf, RowTarget, id, DurationOf, RowDuration);
    SameCallers(seen, rows);
  }

  lemma SameCallers(calls: seq<Call>, rows: seq<DepRow>)
    requires |calls| == |rows| && forall i :: 0 <= i < |rows| ==> calls[i].from == rows[i].service
    ensures Callers(calls) == set r | r in rows :: r.service
  {
    forall f | f in Callers(calls) ensures f in set r | r in rows :: r.service {
      var i :| 0 <= i < |calls| && calls[i].from == f;
      assert rows[i] in rows;
    }
    forall r | r in rows ensures r.service in Callers(calls) {
      var i :| 0 <= i < |rows| && rows[i] == r;
      assert calls[i] in calls;
    }
  }

  lemma NodeTraffic(t: Thresholds, x: Input, m: Map, w: Layout, id: string)
    requires IsMap(t, x, m, w)
    requires ArrowSafe(RowCallers(x))
    requires forall e :: e in m.spanEdges ==> e.to != id
    ensures Into(Edges(m), id) == CallsTo(x, id)
    ensures Weighted(Edges(m), id, ErrorRate()) == Times(100.0, ErrorsTo(x, id))
    ensures Weighted(Edges(m), id, Latency()) == Times(1.0, DurationTo(x, id))
  {
    hide Times, IsMerge, EdgesOfMerge, EndsKnown, NodesFor, IsServiceNode, IsExternalNode, ShowsStats, SpanEdgesOf,
         ServiceNames, ExternalNames, AcceptedCalls, Weighted, Into, KeySum, ArrowSafe, CalcHealth;
    TrafficAppend(m.spanEdges, m.externalEdges, id, ErrorRate());
    TrafficAppend(m.spanEdges, m.externalEdges, id, Latency());
    NoTraffic(m.spanEdges, id, ErrorRate());
    NoTraffic(m.spanEdges, id, Latency());
    RowTotals(x, id);
    ExternalTraffic(t, w.merge, AcceptedCalls(x.deps), w.keys, m.externalEdges, id);
  }

  /**
   * So, end to end: an external node that no span edge points at shows the exact error percentage
   * and the exact mean duration of all accepted calls to it.
   */
  lemma ExternalNodeFromRows(t: Thresholds, x: Input, m: Map, w: Layout, n: Node)
    requires IsMap(t, x, m, w) && n in m.externalNodes
    requires ArrowSafe(RowCallers(x))
    requires forall e :: e in m.spanEdges ==> e.to != n.id
    ensures n.incoming == CallsTo(x, n.id) > 0
    ensures Times(n.errorRate, n.incoming) == Times(100.0, ErrorsTo(x, n.id))
    ensures Times(n.avgDuration, n.incoming) == Times(1.0, DurationTo(x, n.id))
  {
    hide IsMap, Weighted, Into, Edges, Mean, ArrowSafe, CallsTo, ErrorsTo, DurationTo, Times;
    ExternalFacts(t, x, m, w, n);
    NodeTraffic(t, x, m, w, n.id);
    MeanTimes(Edges(m), n.id, ErrorRate());
    MeanTimes(Edges(m), n.id, Latency());
  }

  /**
   * And such a node is down exactly when the accepted errors reach `downError` percent of the accepted
   * calls to it, or their total duration reaches `downLatency` per call; and likewise for healthy.
   */
  lemma HealthFromRows(t: Thresholds, x: Input, m: Map, w: Layout, n: Node)
    requires IsMap(t, x, m, w) && n in m.externalNodes
    requires ArrowSafe(RowCallers(x))
    requires forall e :: e in m.spanEdges ==> e.to != n.id
    ensures var calls := CallsTo(x, n.id);
            var errors, duration := Times(100.0, ErrorsTo(x, n.id)), Times(1.0, DurationTo(x, n.id));
            && (n.health == Down <==> ReachesDown(t, calls, errors, duration))
            && (n.health == Healthy <==> StaysHealthy(t, calls, errors, duration))
  {
    hide IsMap, Weighted, Into, Edges, Mean, ArrowSafe, CallsTo, ErrorsTo, DurationTo, Times, ReachesDown, StaysHealthy;
    NodeTraffic(t, x, m, w, n.id);
    ExternalHealthExactly(t, x, m, w, n);
  }

  // ----- Down edges need not bring their node down -----

  /** Two callers of one Redis host: one with 3 errors in 5 calls, one with 5 calls that take 30 seconds in all. */
  function TwoTroubles(): seq<DepRow> {
    [RedisRow("a:1", "h:1", "1", 5, 0, 3), RedisRow("b:1", "h:1", "1", 5, 30000, 0)]
  }

  lemma RedisCall(service: string, host: string, calls: nat, dur: int, errors: nat)
    requires ':' in service && ':' in host && calls > 0
    ensures var c := Call(service, "redis://" + host, "redis", host, "1", "redis", calls, dur, errors);
            Normalise(RedisRow(service, host, "1", calls, dur, errors)) == Some(c) && Accepted(c)
  {
    ColonIsValid(service);
    ColonIsValid(host);
    ColonIsValid("redis://" + host);
    hide InvalidServiceName;
  }

  lemma AcceptedPair(r: DepRow, s: DepRow, a: Call, b: Call)
    requires Normalise(r) == Some(a) && Accepted(a) && Normalise(s) == Some(b) && Accepted(b)
    ensures AcceptedCalls([r, s]) == [a, b]
  {
    hide Normalise, Accepted;
    assert [r, s][..1] == [r] && [r][..0] == [];
    assert AcceptedCalls([r]) == [a];
  }

  lemma TroubledCalls() returns (a: Call, b: Call)
    ensures AcceptedCalls(TwoTroubles()) == [a, b]
    ensures a.from == "a:1" && b.from == "b:1" && a.target == b.target && a.depType == b.depType
    ensures a.calls == b.calls == 5 && a.errors == 3 && b.errors == 0 && a.totalDur == 0 && b.totalDur == 30000
  {
    hide Normalise, Accepted, AcceptedCalls;
    var f, g, h := "a:1", "b:1", "h:1";
    assert f[1] == ':' && g[1] == ':' && h[1] == ':';
    RedisCall(f, h, 5, 0, 3);
    RedisCall(g, h, 5, 30000, 0);
    a := Call(f, "redis://" + h, "redis", h, "1", "redis", 5, 0, 3);
    b := Call(g, "redis://" + h, "redis", h, "1", "redis", 5, 30000, 0);
    AcceptedPair(RedisRow(f, h, "1", 5, 0, 3), RedisRow(g, h, "1", 5, 30000, 0), a, b);
  }

  lemma PairTripleSum(a: Call, b: Call, c: Call, w: Call -> int)
    requires !SameTriple(a, b) && (c == a || c == b)
    ensures TripleSum([a, b], c, w) == w(c)
  {
    assert [a, b][1..] == [b] && [b][1..] == [];
    assert TripleSum([b], c, w) == if SameTriple(b, c) then w(b) else 0;
    assert TripleSum([a, b], c, w) == (if SameTriple(a, c) then w(a) else 0) + TripleSum([b], c, w);
  }

  lemma PairKeySum(a: Call, b: Call, w: Call -> int)
    requires a.target == b.target
    ensures KeySum([a, b], TargetOf, a.target, w) == w(a) + w(b)
  {
    assert [a, b][1..] == [b] && [b][1..] == [];
    assert KeySum([b], TargetOf, a.target, w) == w(b);
  }

  lemma EdgeKey(t: Thresholds, merge: map<string, Call>, keys: seq<string>, edges: seq<Edge>, e: Edge)
      returns (k: string)
    requires EdgesOfMerge(t, merge, keys, edges) && e in edges
    ensures k in merge && merge[k].calls > 0 && e == CallEdge(t, merge[k])
  {
    hide CallEdge, ListsKeys;
    var i :| 0 <= i < |edges| && edges[i] == e;
    k := keys[i];
  }

  /** In a merge of two calls by different callers each edge carries one of them. */
  lemma EdgeOfPair(t: Thresholds, merge: map<string, Call>, keys: seq<string>, edges: seq<Edge>, a: Call, b: Call,
      e: Edge)
      returns (c: Call)
    requires IsMerge(merge, [a, b]) && ArrowSafe(Callers([a, b])) && a.from != b.from
    requires EdgesOfMerge(t, merge, keys, edges) && e in edges
    ensures (c == a || c == b) && Times(e.errorRate, c.calls) == Times(100.0, c.errors)
    ensures Times(e.avgLatency, c.calls) == Times(1.0, c.totalDur)
  {
    hide IsMerge, ArrowSafe, Times, CallEdge, KeyOf, TripleSum, EdgesOfMerge, Callers;
    var k := EdgeKey(t, merge, keys, edges, e);
    c := KeptCall(merge, [a, b], k);
    OneAggregatePerTriple(merge, [a, b], c);
    PairTripleSum(a, b, c, CallsOf);
    PairTripleSum(a, b, c, ErrorsOf);
    PairTripleSum(a, b, c, DurationOf);
    CallEdgeRates(t, merge[k]);
  }

  lemma KeptCall(merge: map<string, Call>, seen: seq<Call>, k: string) returns (c: Call)
    requires IsMerge(merge, seen) && k in merge
    ensures c in seen && KeyOf(c) == k
  {
    hide KeyOf, KeySum;
    assert CarriesFirst(merge[k], k, seen);
    var i :| FirstUnder(seen, k, i);
    c := seen[i];
  }

  /**
   * For every service map of those rows, with the default thresholds: each edge into the host is down,
   * one for its errors and one for its latency, and the node of the host is only degraded.
   */
  lemma DownEdgesNeedNotBringNodeDown(x: Input, m: Map, w: Layout)
    requires x.deps == TwoTroubles() && x.spans == []
    requires IsMap(Thresholds(10.0, 50.0, 1000.0, 5000.0), x, m, w)
    ensures m.externalNodes != []
    ensures forall n :: n in m.externalNodes ==>
      n.health == Degraded && forall e :: e in Edges(m) && e.to == n.id ==> e.health == Down
  {
    hide AcceptedCalls, TwoTroubles, IsMap, ArrowSafe, MergedTargets, Callers, RowCallers, CallsTo, ErrorsTo,
         DurationTo, Edges;
    var t := Thresholds(10.0, 50.0, 1000.0, 5000.0);
    var a, b := TroubledCalls();
    PairFacts(a, b);
    PairTotals(x, a, b);
    TroubledEdges(t, x, m, w, a, b);
    forall n | n in m.externalNodes ensures n.health == Degraded { TroubledNode(t, x, m, w, n, a, b); }
  }

  lemma TroubledNode(t: Thresholds, x: Input, m: Map, w: Layout, n: Node, a: Call, b: Call)
    requires t == Thresholds(10.0, 50.0, 1000.0, 5000.0) && IsMap(t, x, m, w)
    requires n in m.externalNodes && m.spanEdges == []
    requires AcceptedCalls(x.deps) == [a, b] && ArrowSafe(RowCallers(x)) && MergedTargets([a, b]) == {a.target}
    requires CallsTo(x, a.target) == 10 && ErrorsTo(x, a.target) == 3 && DurationTo(x, a.target) == 30000
    ensures n.health == Degraded
  {
    hide AcceptedCalls, IsMap, ArrowSafe, MergedTargets, RowCallers, CallsTo, ErrorsTo, DurationTo, IsExternalNode,
         Into, CalcHealth, ReachesDown, StaysHealthy, Times;
    ExternalFacts(t, x, m, w, n);
    HealthFromRows(t, x, m, w, n);
    TroubledTotals(t);
  }

  lemma TroubledTotals(t: Thresholds)
    requires t == Thresholds(10.0, 50.0, 1000.0, 5000.0)
    ensures !ReachesDown(t, 10, Times(100.0, 3), Times(1.0, 30000))
    ensures !StaysHealthy(t, 10, Times(100.0, 3), Times(1.0, 30000))
  {
  }

  lemma PairFacts(a: Call, b: Call)
    requires a.from == "a:1" && b.from == "b:1" && a.target == b.target
    ensures ArrowSafe(Callers([a, b])) && MergedTargets([a, b]) == {a.target}
  {
    hide KeyOf;
    forall f, g | f in Callers([a, b]) && g in Callers([a, b]) ensures !Continues(f, g) {
      assert |f + "->"| == 5 && |g| == 3;
    }
    assert FirstUnder([a, b], KeyOf(a), 0) && [a, b][0] == a;
    assert a in Leads([a, b]);
  }

  lemma PairTotals(x: Input, a: Call, b: Call)
    requires AcceptedCalls(x.deps) == [a, b] && a.target == b.target
    ensures CallsTo(x, a.target) == a.calls + b.calls
    ensures ErrorsTo(x, a.target) == a.errors + b.errors
    ensures DurationTo(x, a.target) == a.totalDur + b.totalDur
    ensures RowCallers(x) == Callers([a, b])
  {
    hide AcceptedCalls, KeySum, CallsTo, ErrorsTo, DurationTo, RowCallers, Callers;
    RowTotals(x, a.target);
    PairKeySum(a, b, CallsOf);
    PairKeySum(a, b, ErrorsOf);
    PairKeySum(a, b, DurationOf);
  }

  lemma TroubledEdges(t: Thresholds, x: Input, m: Map, w: Layout, a: Call, b: Call)
    requires t == Thresholds(10.0, 50.0, 1000.0, 5000.0) && IsMap(t, x, m, w) && x.spans == []
    requires AcceptedCalls(x.deps) == [a, b] && ArrowSafe(Callers([a, b])) && MergedTargets([a, b]) == {a.target}
    requires a.from != b.from && a.calls == b.calls == 5
    requires a.errors == 3 && b.errors == 0 && a.totalDur == 0 && b.totalDur == 30000
    ensures m.spanEdges == [] && m.externalNodes != []
    ensures forall e :: e in Edges(m) ==> e.health == Down
  {
    hide AcceptedCalls, ArrowSafe, IsMerge, EdgesOfMerge, MergedTargets, ServiceNames, IsServiceNode, IsExternalNode,
         Callers, ShowsStats, Times, CalcHealth, Reached, NodesFor;
    var n := NodeOf(w.externalOrder, ExternalNames(x), m.externalNodes, a.target);
    forall e | e in m.externalEdges ensures e.health == Down {
      var c := EdgeOfPair(t, w.merge, w.keys, m.externalEdges, a, b, e);
      assert e in Edges(m);
      DownByTotals(t, c.errors, c.totalDur, e);
    }
  }

  lemma DownByTotals(t: Thresholds, errors: nat, dur: int, e: Edge)
    requires t.downError == 50.0 && t.downLatency == 5000.0 && e.health == CalcHealth(t, e.errorRate, e.avgLatency)
    requires Times(e.errorRate, 5) == Times(100.0, errors) && Times(e.avgLatency, 5) == Times(1.0, dur)
    requires errors == 3 || dur == 30000
    ensures e.health == Down
  {
  }
}

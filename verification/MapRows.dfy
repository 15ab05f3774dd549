/** The service map read back from its rows: which nodes and edges it shows, and what the edges carry. */
module MapRows {
  import opened Prelude
  import opened Sums
  import opened DepKeys
  import opened DepMerge
  import opened ServiceMap
  import opened MapHealth

  /** Row `i` is the first with its merge key. */
  ghost predicate LeadsRows(rows: seq<DepRow>, i: int) {
    0 <= i < |rows| && forall j :: 0 <= j < i ==> RowKey(rows[j]) != RowKey(rows[i])
  }

  /** Leading calls are the calls of leading rows. */
  lemma LeadRow(deps: seq<DepRow>, i: nat)
    requires i < |CountedRows(deps)|
    ensures |AcceptedCalls(deps)| == |CountedRows(deps)|
    ensures FirstUnder(AcceptedCalls(deps), KeyOf(AcceptedCalls(deps)[i]), i) <==> LeadsRows(CountedRows(deps), i)
  {
    RowFigures(deps);
    hide AcceptedCalls, CountedRows, KeyOf, RowKey, RowTarget;
  }

  // ----- Nodes -----

  ghost predicate HasNode(nodes: seq<Node>, name: string) { exists n :: n in nodes && n.id == name }

  /** Some leading row goes to the name. */
  ghost predicate LeadsTo(rows: seq<DepRow>, name: string) {
    exists i :: LeadsRows(rows, i) && RowTarget(rows[i]) == name
  }

  /** Some leading row comes from the name. */
  ghost predicate LeadsFrom(rows: seq<DepRow>, name: string) {
    exists i :: LeadsRows(rows, i) && rows[i].service == name
  }

  lemma NodesAreNames(order: seq<string>, names: set<string>, nodes: seq<Node>, name: string)
    requires NodesFor(order, names, nodes)
    ensures HasNode(nodes, name) <==> name in names
  {
    if name in names { var _ := NodeOf(order, names, nodes, name); }
    if HasNode(nodes, name) {
      var n :| n in nodes && n.id == name;
      var i :| 0 <= i < |nodes| && nodes[i] == n;
      assert order[i] in Elems(order);
    }
  }

  lemma LeadEndsAreRows(deps: seq<DepRow>, name: string)
    ensures name in MergedCallers(AcceptedCalls(deps)) <==> LeadsFrom(CountedRows(deps), name)
    ensures name in MergedTargets(AcceptedCalls(deps)) <==> LeadsTo(CountedRows(deps), name)
  {
    RowFigures(deps);
    hide AcceptedCalls, CountedRows, KeyOf, RowKey, RowTarget, MergedCallers, MergedTargets, LeadsFrom, LeadsTo;
    var calls, rows := AcceptedCalls(deps), CountedRows(deps);
    forall i | 0 <= i < |rows| ensures FirstUnder(calls, KeyOf(calls[i]), i) <==> LeadsRows(rows, i) {
      LeadRow(deps, i);
    }
    CallersMatch(calls, rows, name);
    TargetsMatch(calls, rows, name);
  }

  ghost predicate SameLeads(calls: seq<Call>, rows: seq<DepRow>) {
    && |calls| == |rows|
    && (forall i :: 0 <= i < |rows| ==> (FirstUnder(calls, KeyOf(calls[i]), i) <==> LeadsRows(rows, i)))
    && forall i :: 0 <= i < |rows| ==> calls[i].from == rows[i].service && calls[i].target == RowTarget(rows[i])
  }

  lemma CallersMatch(calls: seq<Call>, rows: seq<DepRow>, name: string)
    requires SameLeads(calls, rows)
    ensures name in MergedCallers(calls) <==> LeadsFrom(rows, name)
  {
    hide KeyOf, RowKey, RowTarget, FirstUnder;
    if name in MergedCallers(calls) {
      var c :| c in Leads(calls) && c.from == name;
      var i :| 0 <= i < |calls| && FirstUnder(calls, KeyOf(calls[i]), i) && calls[i] == c;
      assert LeadsRows(rows, i);
    }
    if LeadsFrom(rows, name) {
      var i :| LeadsRows(rows, i) && rows[i].service == name;
      assert calls[i] in Leads(calls);
    }
  }

  lemma TargetsMatch(calls: seq<Call>, rows: seq<DepRow>, name: string)
    requires SameLeads(calls, rows)
    ensures name in MergedTargets(calls) <==> LeadsTo(rows, name)
  {
    hide KeyOf, RowKey, RowTarget, FirstUnder;
    if name in MergedTargets(calls) {
      var c :| c in Leads(calls) && c.target == name;
      var i :| 0 <= i < |calls| && FirstUnder(calls, KeyOf(calls[i]), i) && calls[i] == c;
      assert LeadsRows(rows, i);
    }
    if LeadsTo(rows, name) {
      var i :| LeadsRows(rows, i) && RowTarget(rows[i]) == name;
      assert calls[i] in Leads(calls);
    }
  }

  /**
   * Which nodes a map has. A service node for every valid name that ends a valid span row, calls first
   * under some merge key, or was seen or has statistics; an external node for every target of a row that
   * is the first with its merge key; and no others.
   */
  lemma NodesShown(t: Thresholds, x: Input, m: Map, w: Layout, name: string)
    requires IsMap(t, x, m, w)
    ensures HasNode(m.serviceNodes, name) <==>
      || (exists r :: r in x.spans && !InvalidServiceName(r.from) && !InvalidServiceName(r.to)
                      && (r.from == name || r.to == name))
      || LeadsFrom(CountedRows(x.deps), name)
      || ((name in x.seen || name in x.stats) && !InvalidServiceName(name))
    ensures HasNode(m.externalNodes, name) <==> LeadsTo(CountedRows(x.deps), name)
  {
    hide IsMerge, EdgesOfMerge, NodesFor, IsServiceNode, IsExternalNode, ShowsStats, EndsKnown, HasNode, AcceptedCalls,
         CountedRows, ServiceNames, MergedTargets, SpanEdgesOf, LeadsFrom, LeadsTo, InvalidServiceName;
    NodesAreNames(w.serviceOrder, ServiceNames(x), m.serviceNodes, name);
    NodesAreNames(w.externalOrder, ExternalNames(x), m.externalNodes, name);
    LeadEndsAreRows(x.deps, name);
    ServiceNamesAre(x, name);
  }

  lemma ServiceNamesAre(x: Input, name: string)
    ensures name in ServiceNames(x) <==>
      || (exists r :: r in x.spans && !InvalidServiceName(r.from) && !InvalidServiceName(r.to)
                      && (r.from == name || r.to == name))
      || name in MergedCallers(AcceptedCalls(x.deps))
      || ((name in x.seen || name in x.stats) && !InvalidServiceName(name))
  {
    hide AcceptedCalls, MergedCallers, InvalidServiceName;
  }

  /**
   * What a service node shows: the statistics of its name, or zeros when there are none; the health that
   * these give; and as its incoming calls those of all rows into the name.
   */
  lemma ServiceNodeShows(t: Thresholds, x: Input, m: Map, w: Layout, n: Node)
    requires IsMap(t, x, m, w) && n in m.serviceNodes
    ensures n.errorRate == if n.id in x.stats then x.stats[n.id].errorRate else 0.0
    ensures n.avgDuration == if n.id in x.stats then x.stats[n.id].avgDuration else 0.0
    ensures n.health == Down <==> n.errorRate >= t.downError || n.avgDuration >= t.downLatency
    ensures n.health == Healthy <==>
      && n.errorRate < t.downError && n.avgDuration < t.downLatency
      && n.errorRate < t.degradedError && n.avgDuration < t.degradedLatency
    ensures n.incoming == AllCallsTo(x, n.id) && n.nodeType == "service"
  {
    hide AllCallsTo, IsMerge, EdgesOfMerge, NodesFor, EndsKnown, SpanEdgesOf, IsExternalNode, IsServiceNode, ShowsStats,
         Edges, AcceptedCalls, ServiceNames, ExternalNames, KeySum, AllErrorsTo, AllDurationTo, Weighted, Into;
    InputTraffic(t, x, m, w, n.id);
    IncomingIs(n, Edges(m));
    StatsShown(t, x.stats, n);
  }

  lemma IncomingIs(n: Node, edges: seq<Edge>)
    requires IsServiceNode(n, edges)
    ensures n.incoming == Into(edges, n.id)
  {
  }

  lemma StatsShown(t: Thresholds, stats: map<string, Stats>, n: Node)
    requires ShowsStats(t, stats, n)
    ensures n.errorRate == if n.id in stats then stats[n.id].errorRate else 0.0
    ensures n.avgDuration == if n.id in stats then stats[n.id].avgDuration else 0.0
    ensures n.health == Down <==> n.errorRate >= t.downError || n.avgDuration >= t.downLatency
    ensures n.health == Healthy <==>
      && n.errorRate < t.downError && n.avgDuration < t.downLatency
      && n.errorRate < t.degradedError && n.avgDuration < t.degradedLatency
    ensures n.nodeType == "service"
  {
  }

  // ----- Edges -----

  /**
   * Every external edge stands for the counted rows with one merge key: it has the ends, the type and the
   * address of the first of them, their calls, and rates that give their errors and durations back.
   */
  lemma EdgeFromRows(t: Thresholds, x: Input, m: Map, w: Layout, e: Edge) returns (i: nat)
    requires IsMap(t, x, m, w) && e in m.externalEdges
    ensures LeadsRows(CountedRows(x.deps), i)
    ensures var rows := CountedRows(x.deps);
            var row, k := rows[i], RowKey(rows[i]);
            && e.from == row.service && e.to == RowTarget(row) && e.depType == RowType(row)
            && Target(e.host, e.port, e.scheme) == RowAddress(row)
            && e.calls == KeySum(rows, RowKey, k, RowCalls)
            && Times(e.errorRate, e.calls) == Times(100.0, KeySum(rows, RowKey, k, RowErrors))
            && Times(e.avgLatency, e.calls) == Times(1.0, KeySum(rows, RowKey, k, RowDuration))
  {
    hide AcceptedCalls, CountedRows, KeyOf, RowKey, RowTarget, RowType, RowAddress, CallEdge, KeySum, Times,
         EdgesOfMerge, LeadsRows, FirstUnder, IsServiceNode, IsExternalNode, NodesFor, EndsKnown, SpanEdgesOf,
         ShowsStats, Normalise;
    var rows, seen := CountedRows(x.deps), AcceptedCalls(x.deps);
    var k := EdgeKey(t, w.merge, w.keys, m.externalEdges, e);
    i := FirstOfAggregate(w.merge, seen, k);
    KeyTotals(x.deps, k);
    CallsOfRows(x.deps);
    RowFigures(x.deps);
    NormaliseFields(rows[i], seen[i]);
    LeadRow(x.deps, i);
    CallEdgeRates(t, w.merge[k]);
    CallEdgeEnds(t, w.merge[k]);
  }

  lemma FirstOfAggregate(merge: map<string, Call>, seen: seq<Call>, k: string) returns (i: nat)
    requires IsMerge(merge, seen) && k in merge
    ensures FirstUnder(seen, k, i) && i < |seen| && KeyOf(seen[i]) == k && SameTriple(merge[k], seen[i])
    ensures merge[k].host == seen[i].host && merge[k].port == seen[i].port && merge[k].scheme == seen[i].scheme
    ensures merge[k].calls == KeySum(seen, KeyOf, k, CallsOf) && merge[k].calls > 0
    ensures merge[k].errors == KeySum(seen, KeyOf, k, ErrorsOf)
    ensures merge[k].totalDur == KeySum(seen, KeyOf, k, DurationOf)
  {
    hide KeyOf, KeySum, Accepted;
    assert CarriesFirst(merge[k], k, seen);
    i :| FirstUnder(seen, k, i) && SameTriple(merge[k], seen[i])
      && merge[k].host == seen[i].host && merge[k].port == seen[i].port && merge[k].scheme == seen[i].scheme;
  }

  lemma KeyTotals(deps: seq<DepRow>, k: string)
    ensures var seen, rows := AcceptedCalls(deps), CountedRows(deps);
            && KeySum(seen, KeyOf, k, CallsOf) == KeySum(rows, RowKey, k, RowCalls)
            && KeySum(seen, KeyOf, k, ErrorsOf) == KeySum(rows, RowKey, k, RowErrors)
            && KeySum(seen, KeyOf, k, DurationOf) == KeySum(rows, RowKey, k, RowDuration)
  {
    RowFigures(deps);
    hide AcceptedCalls, CountedRows, KeyOf, RowKey, RowTarget, KeySum;
    var seen, rows := AcceptedCalls(deps), CountedRows(deps);
    KeySumOfRows(seen, rows, KeyOf, RowKey, k, CallsOf, RowCalls);
    KeySumOfRows(seen, rows, KeyOf, RowKey, k, ErrorsOf, RowErrors);
    KeySumOfRows(seen, rows, KeyOf, RowKey, k, DurationOf, RowDuration);
  }

  /** Conversely every counted row is carried by some edge with its merge key. */
  lemma RowHasEdge(t: Thresholds, x: Input, m: Map, w: Layout, row: DepRow) returns (e: Edge)
    requires IsMap(t, x, m, w) && row in CountedRows(x.deps)
    ensures e in m.externalEdges && e.from + "->" + e.to + "|" + e.depType == RowKey(row)
  {
    hide AcceptedCalls, CountedRows, KeyOf, RowKey, CallEdge, IsServiceNode, IsExternalNode, NodesFor, EndsKnown,
         SpanEdgesOf, ShowsStats, IsMerge, EdgesOfMerge;
    var c := CallOfRow(x.deps, row);
    KeyInMerge(w.merge, AcceptedCalls(x.deps), c);
    e := EdgeOfKey(t, w.merge, w.keys, m.externalEdges, KeyOf(c));
  }

  lemma CallOfRow(deps: seq<DepRow>, row: DepRow) returns (c: Call)
    requires row in CountedRows(deps)
    ensures c in AcceptedCalls(deps) && KeyOf(c) == RowKey(row)
  {
    RowFigures(deps);
    hide AcceptedCalls, CountedRows, KeyOf, RowKey, RowTarget;
    var i :| 0 <= i < |CountedRows(deps)| && CountedRows(deps)[i] == row;
    c := AcceptedCalls(deps)[i];
  }

  lemma KeyInMerge(merge: map<string, Call>, seen: seq<Call>, c: Call)
    requires IsMerge(merge, seen) && c in seen
    ensures KeyOf(c) in merge && KeyOf(merge[KeyOf(c)]) == KeyOf(c)
  {
    hide KeyOf, Accepted, KeySum, CarriesFirst;
  }

  /** No two external edges have the same ends and type. */
  lemma ExternalEdgesDiffer(t: Thresholds, x: Input, m: Map, w: Layout, i: nat, j: nat)
    requires IsMap(t, x, m, w) && i < j < |m.externalEdges|
    ensures var a, b := m.externalEdges[i], m.externalEdges[j];
            a.from != b.from || a.to != b.to || a.depType != b.depType
  {
    hide CallEdge, KeyOf, AcceptedCalls, IsServiceNode, IsExternalNode, NodesFor, EndsKnown, SpanEdgesOf, ShowsStats,
         Accepted, KeySum, CarriesFirst;
    var a, b := w.merge[w.keys[i]], w.merge[w.keys[j]];
    assert KeyOf(a) == w.keys[i] && KeyOf(b) == w.keys[j];
    CallEdgeEnds(t, a);
    CallEdgeEnds(t, b);
    if SameTriple(a, b) { SameKey(a, b); }
  }

  lemma SameKey(a: Call, b: Call)
    requires SameTriple(a, b)
    ensures KeyOf(a) == KeyOf(b)
  {
  }

  lemma EdgeOfKey(t: Thresholds, merge: map<string, Call>, keys: seq<string>, edges: seq<Edge>, k: string)
      returns (e: Edge)
    requires EdgesOfMerge(t, merge, keys, edges) && k in merge && KeyOf(merge[k]) == k
    ensures e in edges && e.from + "->" + e.to + "|" + e.depType == k
  {
    assert k in Elems(keys);
    var i :| 0 <= i < |keys| && keys[i] == k;
    e := edges[i];
    CallEdgeEnds(t, merge[k]);
  }

  /** Error and success rate of every edge add up to 100 unless the error rate is above that. */
  lemma RatesAddUp(t: Thresholds, x: Input, m: Map, w: Layout, e: Edge)
    requires IsMap(t, x, m, w) && e in Edges(m)
    ensures e.successRate == if e.errorRate <= 100.0 then 100.0 - e.errorRate else 0.0
  {
    hide IsServiceNode, IsExternalNode, NodesFor, EndsKnown, ShowsStats, IsMerge;
    if e in m.externalEdges {
      var k := EdgeKey(t, w.merge, w.keys, m.externalEdges, e);
    } else {
      SpanRates(t, x.spans, e);
    }
  }

  lemma {:induction false} SpanRates(t: Thresholds, rows: seq<SpanRow>, e: Edge)
    requires e in SpanEdgesOf(t, rows)
    ensures exists r :: r in rows && ValidSpan(r) && e.from == r.from && e.to == r.to && e.calls == r.calls
                        && e.errorRate == r.errorRate && e.avgLatency == r.avgLatency
    ensures e.successRate == if e.errorRate <= 100.0 then 100.0 - e.errorRate else 0.0
  {
    hide ValidSpan, CalcHealth;
    if e in SpanEdgesOf(t, rows[..|rows| - 1]) { SpanRates(t, rows[..|rows| - 1], e); }
  }
}

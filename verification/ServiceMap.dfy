/** The service map: edges from span rows and external calls, nodes with their totals and health. */
module ServiceMap {
  import opened Prelude
  import opened Strings
  import opened Sums
  import opened DepKeys
  import opened DepMerge

  datatype Thresholds = Thresholds(degradedError: real, downError: real, degradedLatency: real, downLatency: real)

  datatype Health = Healthy | Degraded | Down

  function CalcHealth(t: Thresholds, errorRate: real, avgLatency: real): Health {
    if errorRate >= t.downError || avgLatency >= t.downLatency then Down
    else if errorRate >= t.degradedError || avgLatency >= t.degradedLatency then Degraded
    else Healthy
  }

  /** A stored threshold row overrides a default only where it is positive. */
  method LoadMapThresholds(row: Option<Thresholds>) returns (t: Thresholds)
    ensures t.degradedError > 0.0 && t.downError > 0.0 && t.degradedLatency > 0.0 && t.downLatency > 0.0
    ensures row.None? ==> t == Thresholds(10.0, 50.0, 1000.0, 5000.0)
    ensures row.Some? ==>
      && t.degradedError == (if row.value.degradedError > 0.0 then row.value.degradedError else 10.0)
      && t.downError == (if row.value.downError > 0.0 then row.value.downError else 50.0)
      && t.degradedLatency == (if row.value.degradedLatency > 0.0 then row.value.degradedLatency else 1000.0)
      && t.downLatency == (if row.value.downLatency > 0.0 then row.value.downLatency else 5000.0)
  {
    t := Thresholds(10.0, 50.0, 1000.0, 5000.0);
    if row.Some? {
      var r := row.value;
      if r.degradedError > 0.0 { t := t.(degradedError := r.degradedError); }
      if r.downError > 0.0 { t := t.(downError := r.downError); }
      if r.degradedLatency > 0.0 { t := t.(degradedLatency := r.degradedLatency); }
      if r.downLatency > 0.0 { t := t.(downLatency := r.downLatency); }
    }
  }

  /** A row of the span query that joins child and parent services. */
  datatype SpanRow = SpanRow(from: string, to: string, avgLatency: real, errorRate: real, calls: nat)

  datatype Edge = Edge(
    from: string, to: string, avgLatency: real, errorRate: real, successRate: real, calls: nat,
    health: Health, depType: string, host: string, port: string, scheme: string)

  function EdgeFrom(e: Edge): string { e.from }

  function EdgeTo(e: Edge): string { e.to }

  function EdgeCalls(e: Edge): int { e.calls }

  function SuccessRate(errorRate: real): real {
    if 100.0 - errorRate < 0.0 then 0.0 else 100.0 - errorRate
  }

  ghost predicate ValidSpan(r: SpanRow) { !InvalidServiceName(r.from) && !InvalidServiceName(r.to) }

  function SpanEdge(t: Thresholds, r: SpanRow): Edge {
    Edge(r.from, r.to, r.avgLatency, r.errorRate, SuccessRate(r.errorRate), r.calls,
         CalcHealth(t, r.errorRate, r.avgLatency), "service", "", "", "")
  }

  /** The edge of a merged aggregate. */
  function CallEdge(t: Thresholds, a: Call): (e: Edge)
    requires a.calls > 0
    ensures e.avgLatency * (a.calls as real) == a.totalDur as real
    ensures e.errorRate * (a.calls as real) == 100.0 * (a.errors as real)
  {
    var avgLatency := (a.totalDur as real) / (a.calls as real);
    var errorRate := (a.errors as real) / (a.calls as real) * 100.0;
    Edge(a.from, a.target, avgLatency, errorRate, SuccessRate(errorRate), a.calls,
         CalcHealth(t, errorRate, avgLatency), a.depType, a.host, a.port, a.scheme)
  }

  // ----- Edges -----

  /** The edges of the valid rows, in row order. */
  ghost function SpanEdgesOf(t: Thresholds, rows: seq<SpanRow>): seq<Edge> {
    if rows == [] then []
    else
      var r := rows[|rows| - 1];
      SpanEdgesOf(t, rows[..|rows| - 1]) + if ValidSpan(r) then [SpanEdge(t, r)] else []
  }

  /** The services at either end of a valid row. */
  ghost function SpanEnds(rows: seq<SpanRow>): set<string> {
    (set r | r in rows && ValidSpan(r) :: r.from) + (set r | r in rows && ValidSpan(r) :: r.to)
  }

  method SpanEdges(t: Thresholds, rows: seq<SpanRow>) returns (edges: seq<Edge>, services: set<string>)
    ensures edges == SpanEdgesOf(t, rows)
    ensures services == SpanEnds(rows)
    ensures forall e :: e in edges ==> e.from in services && e.to in services
    ensures forall e :: e in edges ==> e.health == CalcHealth(t, e.errorRate, e.avgLatency)
  {
    hide InvalidServiceName, SpanEdge, CalcHealth, SpanEnds;
    edges, services := [], {};
    assert rows[..0] == [];
    NoSpanEnds();
    for i := 0 to |rows|
      invariant edges == SpanEdgesOf(t, rows[..i])
      invariant services == SpanEnds(rows[..i])
      invariant forall e :: e in edges ==> e.from in services && e.to in services
      invariant forall e :: e in edges ==> e.health == CalcHealth(t, e.errorRate, e.avgLatency)
    {
      var r := rows[i];
      assert rows[..i + 1][..i] == rows[..i] && rows[..i + 1] == rows[..i] + [r];
      if !InvalidServiceName(r.from) && !InvalidServiceName(r.to) {
        SpanEdgeEnds(t, r);
        SpanEndsNext(rows[..i], r);
        var e := SpanEdge(t, r);
        assert e in edges + [e];
        edges := edges + [e];
        services := services + {r.from, r.to};
      } else {
        SpanEndsNext(rows[..i], r);
        assert edges + [] == edges;
      }
    }
    assert rows[..|rows|] == rows;
  }

  lemma NoSpanEnds()
    ensures SpanEnds([]) == {}
  {
  }

  lemma SpanEndsNext(rows: seq<SpanRow>, r: SpanRow)
    ensures SpanEnds(rows + [r]) == SpanEnds(rows) + if ValidSpan(r) then {r.from, r.to} else {}
  {
    hide ValidSpan;
    assert forall x :: x in rows + [r] <==> x in rows || x == r;
  }

  lemma SpanEdgeEnds(t: Thresholds, r: SpanRow)
    ensures SpanEdge(t, r).from == r.from && SpanEdge(t, r).to == r.to
    ensures SpanEdge(t, r).health == CalcHealth(t, SpanEdge(t, r).errorRate, SpanEdge(t, r).avgLatency)
  {
  }

  /** `edges` has one edge for each aggregate, in the order of `keys`. */
  ghost predicate EdgesOfMerge(t: Thresholds, merge: map<string, Call>, keys: seq<string>, edges: seq<Edge>) {
    && ListsKeys(keys, merge)
    && |edges| == |keys|
    && forall i :: 0 <= i < |keys| ==>
         keys[i] in merge && merge[keys[i]].calls > 0 && edges[i] == CallEdge(t, merge[keys[i]])
  }

  /** The loop over the merge map runs in no particular order; `keys` is the order it took. */
  method EmitExternal(t: Thresholds, merge: map<string, Call>)
      returns (edges: seq<Edge>, callers: set<string>, externals: set<string>, ghost keys: seq<string>)
    requires forall k :: k in merge ==> merge[k].calls > 0
    ensures EdgesOfMerge(t, merge, keys, edges)
    ensures callers == Froms(merge) && externals == Targets(merge)
    ensures forall e :: e in edges ==> e.from in callers && e.to in externals
    ensures forall x :: x in externals ==> Reached(edges, x)
  {
    hide CallEdge, Reached, Distinct, Elems, InStep, Froms, Targets, ListsKeys;
    edges, callers, externals, keys := [], {}, {}, [];
    var todo := merge.Keys;
    NothingEmitted(t, merge);
    while todo != {}
      invariant todo <= merge.Keys && Distinct(keys) && Elems(keys) == merge.Keys - todo
      invariant InStep(t, merge, keys, edges)
      invariant callers == Froms(merge - todo) && externals == Targets(merge - todo)
      invariant forall e :: e in edges ==> e.from in callers && e.to in externals
      invariant forall x :: x in externals ==> Reached(edges, x)
    {
      var k :| k in todo;
      var a := merge[k];
      OneMoreKey(keys, k);
      OneMoreEnd(merge, todo, k);
      InStepMore(t, merge, keys, edges, k);
      var e := CallEdge(t, a);
      CallEdgeEnds(t, a);
      ReachedMore(edges, e);
      edges := edges + [e];
      callers := callers + {a.from};
      externals := externals + {a.target};
      keys := keys + [k];
      todo := todo - {k};
    }
    assert merge - {} == merge;
    AllEmitted(t, merge, keys, edges);
  }

  lemma NothingEmitted(t: Thresholds, merge: map<string, Call>)
    requires forall k :: k in merge ==> merge[k].calls > 0
    ensures Froms(merge - merge.Keys) == {} && Targets(merge - merge.Keys) == {}
    ensures Distinct<string>([]) && Elems<string>([]) == {} && InStep(t, merge, [], [])
  {
  }

  lemma AllEmitted(t: Thresholds, merge: map<string, Call>, keys: seq<string>, edges: seq<Edge>)
    requires Distinct(keys) && Elems(keys) == merge.Keys && InStep(t, merge, keys, edges)
    ensures EdgesOfMerge(t, merge, keys, edges)
  {
    hide CallEdge;
  }

  /** Edge for key, in the same order. */
  ghost predicate InStep(t: Thresholds, merge: map<string, Call>, keys: seq<string>, edges: seq<Edge>) {
    && |edges| == |keys|
    && (forall k :: k in merge ==> merge[k].calls > 0)
    && forall i :: 0 <= i < |keys| ==> keys[i] in merge && edges[i] == CallEdge(t, merge[keys[i]])
  }

  lemma InStepMore(t: Thresholds, merge: map<string, Call>, keys: seq<string>, edges: seq<Edge>, k: string)
    requires InStep(t, merge, keys, edges) && k in merge
    ensures merge[k].calls > 0 && InStep(t, merge, keys + [k], edges + [CallEdge(t, merge[k])])
  {
    hide CallEdge;
  }

  lemma OneMoreEnd(merge: map<string, Call>, todo: set<string>, k: string)
    requires k in merge && k in todo
    ensures Froms(merge - (todo - {k})) == Froms(merge - todo) + {merge[k].from}
    ensures Targets(merge - (todo - {k})) == Targets(merge - todo) + {merge[k].target}
  {
    var before, after := merge - todo, merge - (todo - {k});
    assert forall j :: j in after <==> j in before || j == k;
    assert forall j :: j in before ==> after[j] == before[j];
    assert after[k] == merge[k];
  }

  lemma OneMoreKey(keys: seq<string>, k: string)
    requires Distinct(keys) && k !in Elems(keys)
    ensures Distinct(keys + [k]) && Elems(keys + [k]) == Elems(keys) + {k}
  {
  }

  /** Some edge carries traffic to `x`. */
  ghost predicate Reached(edges: seq<Edge>, x: string) {
    exists e :: e in edges && e.to == x && e.calls > 0
  }

  lemma ReachedMore(edges: seq<Edge>, e: Edge)
    requires e.calls > 0
    ensures Reached(edges + [e], e.to)
    ensures forall x :: Reached(edges, x) ==> Reached(edges + [e], x)
  {
    assert e in edges + [e];
    forall x | Reached(edges, x) ensures Reached(edges + [e], x) {
      var d :| d in edges && d.to == x && d.calls > 0;
      assert d in edges + [e];
    }
  }

  lemma CallEdgeEnds(t: Thresholds, a: Call)
    requires a.calls > 0
    ensures var e := CallEdge(t, a);
            && e.from == a.from && e.to == a.target && e.calls == a.calls && e.depType == a.depType
            && e.host == a.host && e.port == a.port && e.scheme == a.scheme
  {
  }

  // ----- Nodes -----

  datatype Node = Node(
    id: string, health: Health, avgDuration: real, errorRate: real, incoming: nat, outgoing: nat, nodeType: string)

  function NodeId(n: Node): string { n.id }

  function NodeIn(n: Node): int { n.incoming }

  function NodeOut(n: Node): int { n.outgoing }

  /** The statistics row of a service; a missing row reads as zeros. */
  datatype Stats = Stats(errorRate: real, avgDuration: real)

  ghost predicate IsServiceNode(n: Node, edges: seq<Edge>) {
    n.incoming == KeySum(edges, EdgeTo, n.id, EdgeCalls) && n.outgoing == KeySum(edges, EdgeFrom, n.id, EdgeCalls)
  }

  function StatsOf(stats: map<string, Stats>, service: string): Stats {
    if service in stats then stats[service] else Stats(0.0, 0.0)
  }

  /** A service node shows its own statistics, and its health comes from them and not from its edges. */
  ghost predicate ShowsStats(t: Thresholds, stats: map<string, Stats>, n: Node) {
    && n.errorRate == StatsOf(stats, n.id).errorRate && n.avgDuration == StatsOf(stats, n.id).avgDuration
    && n.health == CalcHealth(t, n.errorRate, n.avgDuration) && n.nodeType == "service"
  }

  /** Some order of the names in `names`, and the nodes in that order. */
  ghost predicate NodesFor(order: seq<string>, names: set<string>, nodes: seq<Node>) {
    && Distinct(order) && Elems(order) == names && |nodes| == |order|
    && forall i :: 0 <= i < |order| ==> nodes[i].id == order[i]
  }

  method ServiceNodes(t: Thresholds, services: set<string>, stats: map<string, Stats>, edges: seq<Edge>)
      returns (nodes: seq<Node>, ghost order: seq<string>)
    ensures NodesFor(order, services, nodes)
    ensures forall n :: n in nodes ==> IsServiceNode(n, edges) && ShowsStats(t, stats, n)
  {
    nodes, order := [], [];
    var todo := services;
    while todo != {}
      invariant todo <= services && Distinct(order) && Elems(order) == services - todo && |nodes| == |order|
      invariant forall i :: 0 <= i < |order| ==> nodes[i].id == order[i]
      invariant forall n :: n in nodes ==> IsServiceNode(n, edges) && ShowsStats(t, stats, n)
    {
      var service :| service in todo;
      var row := StatsOf(stats, service);
      var incoming, outgoing := Traffic(service, edges);
      assert service !in Elems(order);
      assert Elems(order + [service]) == Elems(order) + {service};
      nodes := nodes + [Node(service, CalcHealth(t, row.errorRate, row.avgDuration), row.avgDuration, row.errorRate,
                             incoming, outgoing, "service")];
      order := order + [service];
      todo := todo - {service};
    }
  }

  method Traffic(service: string, edges: seq<Edge>) returns (incoming: nat, outgoing: nat)
    ensures incoming == KeySum(edges, EdgeTo, service, EdgeCalls)
    ensures outgoing == KeySum(edges, EdgeFrom, service, EdgeCalls)
  {
    incoming, outgoing := 0, 0;
    for i := 0 to |edges|
      invariant incoming == KeySum(edges[..i], EdgeTo, service, EdgeCalls)
      invariant outgoing == KeySum(edges[..i], EdgeFrom, service, EdgeCalls)
    {
      var e := edges[i];
      assert edges[..i + 1] == edges[..i] + [e];
      KeySumSnoc(edges[..i], e, EdgeTo, service, EdgeCalls);
      KeySumSnoc(edges[..i], e, EdgeFrom, service, EdgeCalls);
      if e.to == service { incoming := incoming + e.calls; }
      if e.from == service { outgoing := outgoing + e.calls; }
    }
    assert edges[..|edges|] == edges;
  }

  /** The call-weighted sum of a rate over the edges into `x`. */
  ghost function Weighted(edges: seq<Edge>, x: string, rate: Edge -> real): real {
    if edges == [] then 0.0
    else
      var e := edges[|edges| - 1];
      Weighted(edges[..|edges| - 1], x, rate) + if e.to == x then rate(e) * (e.calls as real) else 0.0
  }

  lemma {:induction false} CallsNonNegative(edges: seq<Edge>, x: string)
    ensures KeySum(edges, EdgeTo, x, EdgeCalls) >= 0
  {
    if edges != [] { CallsNonNegative(edges[1..], x); }
  }

  /** The calls over the edges into `x`. */
  ghost function Into(edges: seq<Edge>, x: string): nat {
    CallsNonNegative(edges, x);
    KeySum(edges, EdgeTo, x, EdgeCalls)
  }

  lemma NoEdges(x: string, rate: Edge -> real)
    ensures Into([], x) == 0 && Weighted([], x, rate) == 0.0
  {
  }

  lemma LastEdge(edges: seq<Edge>, x: string, rate: Edge -> real)
    requires edges != []
    ensures var before, e := edges[..|edges| - 1], edges[|edges| - 1];
            && Into(edges, x) == Into(before, x) + (if e.to == x then e.calls else 0)
            && Weighted(edges, x, rate)
            == Weighted(before, x, rate) + (if e.to == x then rate(e) * (e.calls as real) else 0.0)
  {
    hide Into;
    LastInto(edges, x);
  }

  lemma LastInto(edges: seq<Edge>, x: string)
    requires edges != []
    ensures var before, e := edges[..|edges| - 1], edges[|edges| - 1];
            Into(edges, x) == Into(before, x) + if e.to == x then e.calls else 0
  {
    hide KeySum;
    var before, e := edges[..|edges| - 1], edges[|edges| - 1];
    KeySumSnoc(before, e, EdgeTo, x, EdgeCalls);
    assert edges == before + [e];
  }

  function Latency(): Edge -> real { (e: Edge) => e.avgLatency }

  function ErrorRate(): Edge -> real { (e: Edge) => e.errorRate }

  ghost function Mean(edges: seq<Edge>, x: string, rate: Edge -> real): real {
    if Into(edges, x) > 0 then Weighted(edges, x, rate) / (Into(edges, x) as real) else 0.0
  }

  /** The error rate and the latency of an external node are the call-weighted means of its incoming edges. */
  ghost predicate IsExternalNode(t: Thresholds, n: Node, edges: seq<Edge>) {
    && n.incoming == Into(edges, n.id) && n.outgoing == 0
    && n.errorRate == Mean(edges, n.id, ErrorRate())
    && n.avgDuration == Mean(edges, n.id, Latency())
    && n.health == CalcHealth(t, n.errorRate, n.avgDuration)
    && n.nodeType == ExternalType(n.id)
  }

  function ExternalType(x: string): string {
    if "db:" <= x then "database"
    else if "http://" <= x || "https://" <= x then "http"
    else if "redis://" <= x || x == "redis" then "redis"
    else if "cache:" <= x || "cache://" <= x then "cache"
    else "external"
  }

  method ExternalNodes(t: Thresholds, externals: set<string>, edges: seq<Edge>)
      returns (nodes: seq<Node>, ghost order: seq<string>)
    ensures NodesFor(order, externals, nodes)
    ensures forall n :: n in nodes ==> IsExternalNode(t, n, edges)
  {
    hide ExternalType;
    nodes, order := [], [];
    var todo := externals;
    while todo != {}
      invariant todo <= externals && Distinct(order) && Elems(order) == externals - todo && |nodes| == |order|
      invariant forall i :: 0 <= i < |order| ==> nodes[i].id == order[i]
      invariant forall n :: n in nodes ==> IsExternalNode(t, n, edges)
    {
      var x :| x in todo;
      var n := ExternalNode(t, x, edges);
      assert x !in Elems(order);
      assert Elems(order + [x]) == Elems(order) + {x};
      nodes := nodes + [n];
      order := order + [x];
      todo := todo - {x};
    }
  }

  method ExternalNode(t: Thresholds, x: string, edges: seq<Edge>) returns (n: Node)
    ensures IsExternalNode(t, n, edges) && n.id == x
  {
    hide Weighted, Into, CalcHealth;
    var totalCalls: nat, totalLatency, weightedErr := 0, 0.0, 0.0;
    NoEdges(x, Latency());
    NoEdges(x, ErrorRate());
    assert edges[..0] == [];
    for i := 0 to |edges|
      invariant totalCalls == Into(edges[..i], x)
      invariant totalLatency == Weighted(edges[..i], x, Latency())
      invariant weightedErr == Weighted(edges[..i], x, ErrorRate())
    {
      var e := edges[i];
      assert edges[..i + 1][..i] == edges[..i];
      LastEdge(edges[..i + 1], x, Latency());
      LastEdge(edges[..i + 1], x, ErrorRate());
      if e.to == x {
        totalCalls := totalCalls + e.calls;
        totalLatency := totalLatency + e.avgLatency * (e.calls as real);
        weightedErr := weightedErr + e.errorRate * (e.calls as real);
      }
    }
    assert edges[..|edges|] == edges;
    var errorRate, avgLatency := 0.0, 0.0;
    if totalCalls > 0 {
      errorRate := weightedErr / (totalCalls as real);
      avgLatency := totalLatency / (totalCalls as real);
    }
    n := Node(x, CalcHealth(t, errorRate, avgLatency), avgLatency, errorRate, totalCalls, 0, ExternalType(x));
  }

  // ----- The whole map -----

  /** What the map promises: how nodes and edges hang together. */
  datatype Map = Map(
    spanEdges: seq<Edge>, externalEdges: seq<Edge>, serviceNodes: seq<Node>, externalNodes: seq<Node>)

  function Edges(m: Map): seq<Edge> { m.spanEdges + m.externalEdges }

  function Nodes(m: Map): seq<Node> { m.serviceNodes + m.externalNodes }

  /** What a request reads: span rows, dependency rows, the names of services seen, and statistics rows. */
  datatype Input = Input(spans: seq<SpanRow>, deps: seq<DepRow>, seen: seq<string>, stats: map<string, Stats>)

  /** The valid names that occur as a service anywhere in the input. */
  ghost function ServiceNames(x: Input): set<string> {
    SpanEnds(x.spans) + MergedCallers(AcceptedCalls(x.deps)) + ValidNames(set s | s in x.seen)
      + ValidNames(x.stats.Keys)
  }

  /** The targets of the merged calls. */
  ghost function ExternalNames(x: Input): set<string> { MergedTargets(AcceptedCalls(x.deps)) }

  /** The merge map behind a map, and the orders in which the three loops over unordered maps ran. */
  datatype Layout = Layout(
    merge: map<string, Call>, keys: seq<string>, serviceOrder: seq<string>, externalOrder: seq<string>)

  /** `m` is a service map of the input. */
  ghost predicate IsMap(t: Thresholds, x: Input, m: Map, w: Layout) {
    && IsMerge(w.merge, AcceptedCalls(x.deps))
    && m.spanEdges == SpanEdgesOf(t, x.spans)
    && EdgesOfMerge(t, w.merge, w.keys, m.externalEdges)
    && NodesFor(w.serviceOrder, ServiceNames(x), m.serviceNodes)
    && NodesFor(w.externalOrder, ExternalNames(x), m.externalNodes)
    && (forall n :: n in m.serviceNodes ==> IsServiceNode(n, Edges(m)) && ShowsStats(t, x.stats, n))
    && (forall n :: n in m.externalNodes ==> IsExternalNode(t, n, Edges(m)))
    && EndsKnown(t, ServiceNames(x), ExternalNames(x), m)
  }

  /** Every edge ends at known names and shows its own health, and every external name is reached. */
  ghost predicate EndsKnown(t: Thresholds, services: set<string>, externals: set<string>, m: Map) {
    && (forall e :: e in Edges(m) ==> e.health == CalcHealth(t, e.errorRate, e.avgLatency))
    && (forall e :: e in m.spanEdges ==> e.from in services && e.to in services)
    && (forall e :: e in m.externalEdges ==> e.from in services && e.to in externals)
    && (forall x :: x in externals ==> Reached(m.externalEdges, x))
  }

  method ServeServiceMap(t: Thresholds, x: Input) returns (m: Map)
    ensures exists w :: IsMap(t, x, m, w)
  {
    hide InvalidServiceName, IsMerge, EdgesOfMerge, IsServiceNode, IsExternalNode, NodesFor, AcceptedCalls,
         ShowsStats, SpanEnds, MergedCallers, MergedTargets, CalcHealth, SpanEdgesOf;
    var spanEdges, names := SpanEdges(t, x.spans);
    var merge := MergeRows(x.deps);
    MergedCallsPositive(merge, AcceptedCalls(x.deps));
    MergeEnds(merge, AcceptedCalls(x.deps));
    var externalEdges, callers, externals, keys := EmitExternal(t, merge);
    names := names + callers;
    names := names + set s | s in x.seen && !InvalidServiceName(s);
    names := names + set s | s in x.stats.Keys && !InvalidServiceName(s);
    assert names == ServiceNames(x);
    var edges := spanEdges + externalEdges;
    var serviceNodes, serviceOrder := ServiceNodes(t, names, x.stats, edges);
    var externalNodes, externalOrder := ExternalNodes(t, externals, edges);
    m := Map(spanEdges, externalEdges, serviceNodes, externalNodes);
    ghost var w := Layout(merge, keys, serviceOrder, externalOrder);
    EdgeHealth(t, merge, keys, spanEdges, externalEdges);
    assert IsMap(t, x, m, w);
  }

  lemma MergedCallsPositive(merge: map<string, Call>, seen: seq<Call>)
    requires IsMerge(merge, seen)
    ensures forall k :: k in merge ==> merge[k].calls > 0
  {
    forall k | k in merge ensures merge[k].calls > 0 { assert Aggregates(merge[k], k, seen); }
  }

  lemma EdgeHealth(t: Thresholds, merge: map<string, Call>, keys: seq<string>, a: seq<Edge>, b: seq<Edge>)
    requires forall e :: e in a ==> e.health == CalcHealth(t, e.errorRate, e.avgLatency)
    requires EdgesOfMerge(t, merge, keys, b)
    ensures forall e :: e in a + b ==> e.health == CalcHealth(t, e.errorRate, e.avgLatency)
  {
    forall e | e in a + b ensures e.health == CalcHealth(t, e.errorRate, e.avgLatency) {
      if e !in a { var i :| 0 <= i < |b| && b[i] == e; }
    }
  }

  // ----- The handshake law -----

  lemma {:induction false} InSumNonNegative(edges: seq<Edge>, ks: set<string>)
    ensures InSum(edges, EdgeTo, ks, EdgeCalls) >= 0
    ensures forall e :: e in edges && e.to in ks ==> InSum(edges, EdgeTo, ks, EdgeCalls) >= e.calls
  {
    if edges != [] { InSumNonNegative(edges[1..], ks); }
  }

  lemma {:induction false} InSumEmpty(edges: seq<Edge>)
    ensures InSum(edges, EdgeTo, {}, EdgeCalls) == 0
  {
    if edges != [] { InSumEmpty(edges[1..]); }
  }

  /** The totals of a list of nodes, added up. */
  lemma NodeTotals(order: seq<string>, names: set<string>, nodes: seq<Node>, edges: seq<Edge>, end: Edge -> string,
      total: Node -> int)
    requires NodesFor(order, names, nodes)
    requires forall n :: n in nodes ==> total(n) == KeySum(edges, end, n.id, EdgeCalls)
    ensures Sum(nodes, total) == InSum(edges, end, names, EdgeCalls)
  {
    forall i | 0 <= i < |nodes|
      ensures NodeId(nodes[i]) == order[i] && total(nodes[i]) == KeySum(edges, end, order[i], EdgeCalls)
    {
      assert nodes[i] in nodes;
    }
    SumOfGroups(edges, end, EdgeCalls, nodes, NodeId, total, order);
    PartitionSum(edges, end, order, EdgeCalls);
  }

  lemma {:induction false} ZeroTotals(nodes: seq<Node>)
    requires forall n :: n in nodes ==> n.outgoing == 0
    ensures Sum(nodes, NodeOut) == 0
  {
    if nodes != [] {
      assert nodes[0] in nodes;
      ZeroTotals(nodes[1..]);
    }
  }

  /** Every end of every edge is a node. */
  lemma EndpointsAreNodes(
      t: Thresholds, x: Input, m: Map, w: Layout, e: Edge)
    requires IsMap(t, x, m, w) && e in Edges(m)
    ensures exists n :: n in Nodes(m) && n.id == e.from
    ensures exists n :: n in Nodes(m) && n.id == e.to
  {
    hide IsMerge, EdgesOfMerge, IsExternalNode, IsServiceNode, ServiceNames, ExternalNames, SpanEdgesOf, ShowsStats,
         Reached;
    var n := NodeOf(w.serviceOrder, ServiceNames(x), m.serviceNodes, e.from);
    assert n in Nodes(m);
    if e.to in ServiceNames(x) {
      n := NodeOf(w.serviceOrder, ServiceNames(x), m.serviceNodes, e.to);
      assert n in Nodes(m);
    } else {
      n := NodeOf(w.externalOrder, ExternalNames(x), m.externalNodes, e.to);
      assert n in Nodes(m);
    }
  }

  lemma NodeOf(order: seq<string>, names: set<string>, nodes: seq<Node>, x: string) returns (n: Node)
    requires NodesFor(order, names, nodes) && x in names
    ensures n in nodes && n.id == x
  {
    assert x in Elems(order);
    var i :| 0 <= i < |order| && order[i] == x;
    n := nodes[i];
  }

  /**
   * The handshake law. Outgoing calls over all nodes add up to the calls over all edges. Incoming
   * calls exceed that total by the calls into names that are both a service and an external target,
   * which appear as two nodes; so the two totals agree exactly when there is no such name.
   */
  lemma Handshake(
      t: Thresholds, x: Input, m: Map, w: Layout)
    requires IsMap(t, x, m, w)
    ensures Sum(Nodes(m), NodeOut) == Sum(Edges(m), EdgeCalls)
    ensures Sum(Nodes(m), NodeIn)
         == Sum(Edges(m), EdgeCalls) + InSum(Edges(m), EdgeTo, ServiceNames(x) * ExternalNames(x), EdgeCalls)
    ensures Sum(Nodes(m), NodeIn) == Sum(Edges(m), EdgeCalls) <==> ServiceNames(x) * ExternalNames(x) == {}
  {
    hide IsMerge, EdgesOfMerge, Mean, CalcHealth, ServiceNames, ExternalNames, SpanEdgesOf, ShowsStats, Reached;
    var edges := Edges(m);
    SumAppend(m.serviceNodes, m.externalNodes, NodeOut);
    SumAppend(m.serviceNodes, m.externalNodes, NodeIn);
    NodeTotals(w.serviceOrder, ServiceNames(x), m.serviceNodes, edges, EdgeFrom, NodeOut);
    NodeTotals(w.serviceOrder, ServiceNames(x), m.serviceNodes, edges, EdgeTo, NodeIn);
    assert forall n :: n in m.externalNodes ==> NodeIn(n) == KeySum(edges, EdgeTo, n.id, EdgeCalls);
    NodeTotals(w.externalOrder, ExternalNames(x), m.externalNodes, edges, EdgeTo, NodeIn);
    ZeroTotals(m.externalNodes);
    InSumAll(edges, EdgeFrom, ServiceNames(x), EdgeCalls);
    InSumUnion(edges, EdgeTo, ServiceNames(x), ExternalNames(x), EdgeCalls);
    InSumAll(edges, EdgeTo, ServiceNames(x) + ExternalNames(x), EdgeCalls);
    DoubleCount(m, ServiceNames(x), ExternalNames(x));
  }

  lemma DoubleCount(m: Map, services: set<string>, externals: set<string>)
    requires forall x :: x in externals ==> Reached(m.externalEdges, x)
    ensures InSum(Edges(m), EdgeTo, services * externals, EdgeCalls) == 0 <==> services * externals == {}
  {
    var both := services * externals;
    InSumNonNegative(Edges(m), both);
    if both == {} {
      InSumEmpty(Edges(m));
    } else {
      var x :| x in both;
      var e :| e in m.externalEdges && e.to == x && e.calls > 0;
      assert e in Edges(m);
    }
  }

  /**
   * A real overlap: a service calls another by a URL without a scheme that is the other's name. In every
   * service map of such an input incoming calls add up to more than the calls over all edges.
   */
  lemma OverlapCountsTwice(t: Thresholds, x: Input, m: Map, w: Layout)
    requires x.deps == [HttpRow("a:1", "b:1", "", 1, 0, 0)] && "b:1" in x.seen
    requires IsMap(t, x, m, w)
    ensures "b:1" in ServiceNames(x) * ExternalNames(x)
    ensures Sum(Nodes(m), NodeIn) > Sum(Edges(m), EdgeCalls)
  {
    hide IsMap, ServiceNames, ExternalNames, Edges, Nodes, Sum, InSum;
    var f, g := "a:1", "b:1";
    assert f[1] == ':' && g[1] == ':' && f != g && f[0] != g[0];
    OverlappingName(x, f, g);
    Handshake(t, x, m, w);
    InSumNonNegative(Edges(m), ServiceNames(x) * ExternalNames(x));
  }

  lemma OverlappingName(x: Input, f: string, g: string)
    requires |f| > 0 && |g| > 0 && ':' in f && ':' in g && f[0] != g[0] && g[0] != 'h'
    requires x.deps == [HttpRow(f, g, "", 1, 0, 0)] && g in x.seen
    ensures g in ServiceNames(x) && g in ExternalNames(x)
  {
    var c := SchemelessCall(f, g);
    ColonIsValid(g);
    hide Normalise, Accepted, InvalidServiceName, KeyOf;
    assert x.deps[..0] == [] && AcceptedCalls(x.deps) == [c];
    assert FirstUnder([c], KeyOf(c), 0) && [c][0] == c;
    assert c in Leads([c]);
  }

  lemma SchemelessCall(f: string, g: string) returns (c: Call)
    requires |f| > 0 && |g| > 0 && ':' in f && ':' in g && f[0] != g[0] && g[0] != 'h'
    ensures Normalise(HttpRow(f, g, "", 1, 0, 0)) == Some(c) && Accepted(c) && c.target == g
  {
    ColonIsValid(f);
    ColonIsValid(g);
    hide InvalidServiceName, ParseHTTPTarget;
    assert BaseURL(g) == g;
    c := Normalise(HttpRow(f, g, "", 1, 0, 0)).value;
  }

  // ----- Node types and edge types -----

  function Family(depType: string): string { if depType == "curl" then "http" else depType }

  /** The rows whose target still shows, in its prefix, what kind of dependency it is. */
  predicate TargetShowsKind(row: DepRow) {
    match row
    case DbRow(_, system, host, _, _, _, _) => InvalidServiceName(host) || system == "db" || "db:" <= system
    case HttpRow(_, url, _, _, _, _) => "http://" <= url || "https://" <= url
    case _ => true
  }

  /**
   * A node's type is read off its name while an edge's comes from the query, and the two agree exactly
   * for the rows above: a database with a known host, or a call to a URL without a scheme, does not
   * get the node type its edges show.
   */
  lemma NodeTypeMatches(row: DepRow, c: Call)
    requires Normalise(row) == Some(c)
    ensures ExternalType(c.target) == Family(c.depType) <==> TargetShowsKind(row)
  {
    hide InvalidServiceName, ParseHTTPTarget, DefaultDBPort, BeforeSlash;
    match row {
      case DbRow(_, system, host, _, _, _, _) =>
        EmptyIsInvalid();
        if InvalidServiceName(host) {
          assert "db:" <= c.target;
        } else {
          DbPrefix(system, host);
          assert c.target == system + "://" + host;
        }
      case HttpRow(_, url, _, _, _, _) =>
        HttpPrefix(url);
      case RedisRow(_, host, _, _, _, _) =>
        assert c.target[0] == 'r' && "redis://" <= c.target;
      case CacheRow(_, system, host, _, _, _) =>
        assert c.target[0] == 'c' && "cache:" <= c.target;
    }
  }

  /**
   * On every service map: the node of a row's target has the type of the row's edges into it exactly for
   * those rows.
   */
  lemma NodeTypeOnMap(t: Thresholds, x: Input, m: Map, w: Layout, row: DepRow, c: Call, n: Node, e: Edge)
    requires IsMap(t, x, m, w) && row in x.deps && Normalise(row) == Some(c) && Accepted(c)
    requires n in m.externalNodes && n.id == c.target
    requires e in m.externalEdges && e.to == c.target && e.depType == c.depType
    ensures n.nodeType == Family(e.depType) <==> TargetShowsKind(row)
  {
    hide Normalise, Accepted, EndsKnown, IsMerge, EdgesOfMerge, NodesFor, ServiceNames, ExternalNames, SpanEdgesOf,
         IsServiceNode, ShowsStats, ExternalType, TargetShowsKind;
    NodeTypeMatches(row, c);
  }

  predicate Letter(c: char) { 'a' <= c <= 'z' }

  /** Names longer than every placeholder, with a letter at either end, are valid. */
  lemma LongIsValid(s: string)
    requires |s| > 9 && Letter(s[0]) && Letter(s[|s| - 1])
    ensures !InvalidServiceName(s)
  {
    assert TrimLeft(s) == s && TrimRight(s) == s;
    assert |ToLower(s)| > 9;
  }

  /** For example a database with a known host. */
  function DatabaseRow(): DepRow { DbRow("shop-frontend", "postgresql", "db.internal", "", 1, 0, 0) }

  lemma DatabaseRowCall() returns (c: Call)
    ensures Normalise(DatabaseRow()) == Some(c) && Accepted(c) && c.depType == "database"
    ensures ExternalType(c.target) == "external"
  {
    var f, system, host := "shop-frontend", "postgresql", "db.internal";
    hide InvalidServiceName, Normalise, Accepted, ExternalType;
    assert |f| == 13 && Letter(f[0]) && Letter(f[12]);
    assert |system| == 10 && system[0] == 'p' && Letter(system[9]);
    assert |host| == 11 && Letter(host[0]) && Letter(host[10]);
    LongIsValid(f);
    LongIsValid(system);
    LongIsValid(host);
    c := KnownHostCall(f, system, host);
  }

  lemma KnownHostCall(f: string, system: string, host: string) returns (c: Call)
    requires !InvalidServiceName(f) && !InvalidServiceName(system) && !InvalidServiceName(host)
    requires |system| > 9 && system[0] == 'p' && |host| > 0 && Letter(host[|host| - 1])
    ensures Normalise(DbRow(f, system, host, "", 1, 0, 0)) == Some(c) && Accepted(c) && c.depType == "database"
    ensures ExternalType(c.target) == "external"
  {
    hide InvalidServiceName, DefaultDBPort, ExternalType, ParseHTTPTarget, BaseURL;
    var target := system + "://" + host;
    assert target[0] == system[0] && target[|target| - 1] == host[|host| - 1];
    LongIsValid(target);
    PlainIsExternal(target);
    EmptyIsInvalid();
    c := Call(f, target, "database", host, DefaultDBPort(system), system, 1, 0, 0);
  }

  lemma PlainIsExternal(target: string)
    requires |target| > 0 && target[0] == 'p'
    ensures ExternalType(target) == "external"
  {
  }

  /** In every service map of that row the node is typed as an external service and its edge as a database. */
  lemma DatabaseNodeIsExternal(t: Thresholds, x: Input, m: Map, w: Layout)
    requires IsMap(t, x, m, w) && x.deps == [DatabaseRow()]
    ensures m.externalEdges != [] && forall e :: e in m.externalEdges ==> e.depType == "database"
    ensures m.externalNodes != [] && forall n :: n in m.externalNodes ==> n.nodeType == "external"
  {
    hide ServiceNames, SpanEdgesOf, IsServiceNode, ShowsStats, EndsKnown, Accepted, Normalise, DatabaseRow,
         ExternalType;
    var c := DatabaseRowCall();
    assert x.deps[..0] == [] && AcceptedCalls(x.deps) == [c];
    hide AcceptedCalls;
    OneCallEnds(t, w.merge, w.keys, m.externalEdges, c);
    var n := NodeOf(w.externalOrder, ExternalNames(x), m.externalNodes, c.target);
    forall n | n in m.externalNodes ensures n.nodeType == "external" {
      var i :| 0 <= i < |m.externalNodes| && m.externalNodes[i] == n;
      assert w.externalOrder[i] in Elems(w.externalOrder);
    }
  }

  lemma OneCallEnds(t: Thresholds, merge: map<string, Call>, keys: seq<string>, edges: seq<Edge>, c: Call)
    requires IsMerge(merge, [c]) && EdgesOfMerge(t, merge, keys, edges)
    ensures MergedTargets([c]) == {c.target}
    ensures edges != [] && forall e :: e in edges ==> e.depType == c.depType
  {
    hide KeyOf, KeySum, Accepted, CalcHealth;
    assert FirstUnder([c], KeyOf(c), 0) && [c][0] == c;
    assert c in Leads([c]);
    assert c in [c] && KeyOf(c) in merge && KeyOf(c) in Elems(keys);
    forall e | e in edges ensures e.depType == c.depType {
      var i :| 0 <= i < |edges| && edges[i] == e;
      assert CarriesFirst(merge[keys[i]], keys[i], [c]);
    }
  }

  lemma DbPrefix(system: string, host: string)
    ensures "db:" <= system + "://" + host <==> system == "db" || "db:" <= system
  {
    var t := system + "://" + host;
    assert forall i :: 0 <= i < |system| ==> t[i] == system[i];
    assert t[|system|] == ':' && t[|system| + 1] == '/' && t[|system| + 2] == '/';
    if "db:" <= t {
      assert t[0] == 'd' && t[1] == 'b' && t[2] == ':';
      assert |system| >= 2;
    }
  }

  lemma HttpPrefix(url: string)
    ensures "http://" <= BaseURL(url) || "https://" <= BaseURL(url) <==> "http://" <= url || "https://" <= url
    ensures "http://" <= url || "https://" <= url ==> BaseURL(url)[0] == 'h'
  {
    hide BeforeSlash;
  }
}

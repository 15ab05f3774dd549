# OPA hub: models and proofs

The hub answers observability queries over ClickHouse, keeps a registry of edge agents and accepts
their pushes. Most of it is SQL text; this project models the parts that compute, and proves what
they promise for every input, every run or every interleaving.

- **Metric ranges** (`MetricTiers`, `Rollup`, `RangeAnswers`, `RowBudget`). The planner picks one of five
  tables and a step, and rewrites the aggregate. The statement is a small syntax tree with an evaluator
  over raw points and over rollup rows. Main results: the choice of tier and step is optimal and unique;
  the rewritten aggregate over the rollup gives, bucket by bucket, the raw aggregate over the window
  widened to row boundaries; whichever table answers, each number is what the aggregation's name says of
  the points asked for; and exactly when the row limit can cut a result, for every plan, grouped by series
  or not.
- **Flame graphs** (`Flame`). The recursive builder, with its shared path set, node counter, depth cap
  and node cap, is a class whose methods are proved equal to the first 4000 nodes, in preorder, of
  the depth-24 cycle-cut unfolding of the call graph; on the chains of the tree, which functions are
  opened, with which edges, and that nothing else is missing.
- **The organization directory cache** (`OamDir`). A step system in which concurrent calls, the clock
  and other hubs interleave, and the uninterrupted call as a class; provenance of every list served,
  which calls can fail, how old a list can be.
- **The service map** (`DepKeys`, `DepMerge`, `ServiceMap`, `MapHealth`, `MapRows`). Merging under a
  concatenated key loses nothing of the rows; the key is injective exactly for arrow-safe callers; the
  handshake law with its exact excess; external nodes are the call-weighted means of their edges, down to
  the rows they come from, and exactly when those rows bring a node down; every node and edge of a map
  read back from its rows.
- **The agent registry and ingest** (`AgentSpec`, `AgentHistory`, `Registry`, `AgentLists`, `Ingest`).
  Mutable agents in the heap, handed out as copies that share labels and push times; run invariants, and
  every field and the liveness of an agent read off the operations of the run; scoped lists and
  organization counts; the counters of two components agree over every run.
- **Orders, partitions and pages** (`Logs`, `LogWalks`, `Replay`, `Grouping`, `Matchers`, `HttpCalls`).

`Prelude`, `Strings`, `Arith`, `Sums`, `Sorting` and `Names` hold shared definitions.

`dafny verify dfyconfig.toml` checks everything.

## Assumptions

- A rollup row summarises some points of one series whose time falls in one interval of the tier's
  resolution (the table definitions are not part of this model). Several rows may share a series and
  a bucket, as before a merge. Points may be split over rows in any way and stored in any order.
- `toStartOfInterval` over n seconds rounds epoch time down to a multiple of n.
- The two answers to `last` are compared where it is definite: no two selected points of one result group
  have the same time stamp and different values. That either answer is the value of a latest point needs
  no such assumption.
- Rates, latencies and metric values are reals; durations in the dependency rows and counters are
  exact integers. `uint64` wrap-around is modelled in the registry and the ingest counters.
- Instants and durations of the planner are nanoseconds; `time.Time.Sub` saturates at the ends of the
  64-bit range; the row limit `maxPoints*20` wraps at 64 bits.
- The clock of the registry and of the sequential cache runs does not go backwards. The step system of
  the cache needs no such assumption beyond its own clock step.
- Maps are ranged over in any order. `sort.Slice` gives some sorted permutation, `sort.SliceStable`
  the stable one.
- Log pages are whatever newest-first order the database gives, cut to the page; the order among equal
  times may differ between requests.

## Where the code differs from what one might expect

- A cache call made while L1 holds a list can fail: what counts is what L1 holds when the call first
  takes the lock (`OamDir.InvokedWithListCanFail`, `OamDir.FirstLookDecides`).
- Caller names that continue one another with `->` can share merge keys (`DepMerge.ArrowNamesCollide`).
- A name that is both a service and an external target is two nodes, so incoming calls are counted
  twice (`ServiceMap.Handshake`, `ServiceMap.OverlapCountsTwice`). A node can be less than down although
  every edge into it is down (`MapHealth.DownEdgesNeedNotBringNodeDown`). A database node with a known
  host, and the target of a call to a URL without a scheme, do not get the node type that their edges
  show (`ServiceMap.NodeTypeOnMap`, `ServiceMap.DatabaseNodeIsExternal`).
- The comment on `ListScoped` promises an empty list for a blank organization under enforced auth; an
  unscoped request is answered before that check (`AgentLists.BlankOrganization`).
- Registration trims the agent id and a push does not, so pushes under a padded id mark no agent
  (`Ingest.PaddedIdIsNeverMarked`, `Ingest.MarkedExactlyWhenTrimmed`).
- A log cursor replaces the time bounds of the request it continues, so a walk can leave its window
  (`Logs.CursorForgetsSince`, `LogWalks.WalksLeaveWindowExactly`), and a full page that ends inside a
  group of equal times loses the rest of the group (`Logs.TiedRowIsMissed`,
  `LogWalks.WalksListEverythingExactly`).
- The shortest duration of an HTTP call is reported as 0 when it reaches 999999 ms
  (`HttpCalls.LongCallsReportZero`).
- The row limit can cut a result when no tier is eligible (`RowBudget.NoTierCutsWitness`), for ranges
  much longer than a Go duration (`RowBudget.SaturatedSpanWitness`) and when grouping by many series
  (`RowBudget.ManySeriesWitness`); `RowBudget.LimitCutsExactly` says exactly when.

## Model

| member | source | states |
|---|---|---|
| MetricTiers.EligibleTiers | internal/query/metrics_tiers.go:58-64 | the loop collects exactly the tiers that still retain the start of the range, the finest first |
| MetricTiers.CoarsestFitting | internal/query/metrics_tiers.go:69-74 | the loop's choice is eligible, no eligible tier within the target is coarser, and it exceeds the target only if it is the finest eligible one |
| MetricTiers.StepFor | internal/query/metrics_tiers.go:75-85 | the step is the largest whole number of tier rows within the target, at least one row, and at least a second on the raw table |
| MetricTiers.SelectMetricTier | internal/query/metrics_tiers.go:49-86 | the planner returns a best tier with its best step, or the day table with a day when no tier is eligible |
| MetricTiers.PlanUnique | internal/query/metrics_tiers.go:49-86 | the declarative description of a plan has one solution, so it fixes the planner's result |
| MetricTiers.EligibleIsSuffix | internal/query/metrics_tiers.go:17-23 | eligible tiers form a suffix of the table |
| MetricTiers.ChosenTierRetainsStart | internal/query/metrics_tiers.go:57-74 | the chosen tier retains the start of the range exactly when some tier does, which is exactly when the coarsest one does |
| MetricTiers.PlanServesRequest | internal/query/metrics_tiers.go:49-86 | in the caller's terms, for n points over a span: the chosen table retains the start; no coarser such table has n rows that fit the span, nor has the chosen one unless it is the finest; n steps fit the span unless the step is a single row or second, and n steps one row longer do not |
| MetricTiers.BuildMetricRangeSQL | internal/query/metrics_tiers.go:149-203 | fails exactly for an unknown aggregation; otherwise the statement carries the plan, the filters, the second-truncated window, the grouping and the row limit of the request, 20 times maxPoints or 10000 |
| MetricTiers.StepIsWholeSeconds | internal/query/metrics_tiers.go:75-158 | every planned step has at least one second, so the one-second fallback is unreachable; on rollup tiers it is a whole number of rows and seconds; twice the emitted step exceeds span/maxPoints when some tier is eligible |
| Rollup.RollupExists | internal/query/metrics_tiers.go:17-23 | every table of points has a rollup at every resolution, so the results below are not empty |
| Rollup.RowsAlign | internal/query/metrics_tiers.go:75-182 | no rollup row straddles two result buckets or an edge of the widened window: a point and its row are selected and grouped alike |
| Rollup.SameGroups | internal/query/metrics_tiers.go:160-196 | raw and rollup tables give the same result groups |
| Rollup.SameSamples | internal/query/metrics_tiers.go:169-176 | `sum(samples)` equals the number of points in every group, and is at least one, so `greatest(.., 1)` is neutral |
| Rollup.SumOverRollup | internal/query/metrics_tiers.go:122-126 | a filtered sum over rollup rows equals the filtered sum over the points, in any order and chunking |
| Rollup.MinOverRollup | internal/query/metrics_tiers.go:127-130 | the minimum of row minima equals the minimum of the points (maxima are minima of negated values) |
| Rollup.LastOverRollup | internal/query/metrics_tiers.go:131-132 | merging `last` states equals `argMax(value, ts)` over the points when the last value is definite |
| Rollup.PlannerRewrites | internal/query/metrics_tiers.go:102-137 | for the five non-quantile aggregations the rollup expression is the rewrite of the raw expression |
| Rollup.RewriteSound | internal/query/metrics_tiers.go:160-197 | for any statement whose step is a multiple of the resolution, the rewritten aggregate evaluates over any rollup to what the raw aggregate gives over the points in the widened window, for values and sample counts |
| Rollup.RollupPreservesMeaning | internal/query/metrics_tiers.go:75-197 | the same for every request the planner sends to a rollup tier |
| RangeAnswers.RawAnswerTells | internal/query/metrics_tiers.go:102-203 | over the raw table a request has a result row exactly where it selects points; "min" and "max" give the value of a selected point that no selected point undercuts or exceeds, "sum" their sum, "avg" times their number that sum, "last" the value of a latest one, and sample_count their number |
| RangeAnswers.RollupAnswerTells | internal/query/metrics_tiers.go:102-203 | the same over every rollup of every table of points, for the points of the window widened to whole rows, without any assumption on equal time stamps |
| RangeAnswers.QuantileAsksItsLevel | internal/query/metrics_tiers.go:26-137 | p50 to p99 ask the raw and the rollup table for the one level their names denote |
| RowBudget.RowsWithinTouched | internal/query/metrics_tiers.go:160-197 | an ungrouped result has at most one row for each bucket the range touches, over raw and rollup tables |
| RowBudget.TouchedBound | internal/query/metrics_tiers.go:49-86 | with an eligible tier and a range within a Go duration, the range touches at most 2*maxPoints+1 buckets |
| RowBudget.LimitNeverCuts | internal/query/metrics_tiers.go:198-202 | with an eligible tier and a range within a Go duration, LIMIT never cuts an ungrouped result, for any table contents |
| RowBudget.LimitCutsExactly | internal/query/metrics_tiers.go:75-202 | for every plan, whatever the range, tier and grouping: some table gives more groups than the limit exactly when the buckets that hold a selectable time stamp of the table, times the number of series when grouping by series, exceed the limit |
| RowBudget.GroupedLimitNeverCuts | internal/query/metrics_tiers.go:193-202 | grouped by series, with an eligible tier, LIMIT never cuts the result for n series with n*(2*maxPoints+1) at most 20*maxPoints |
| RowBudget.UnnamedSeriesExceedAnyLimit | internal/query/metrics_tiers.go:183-202 | grouped by series without naming any, some table exceeds the limit whenever the range holds a time stamp of the table |
| RowBudget.NoTierCutsExactly | internal/query/metrics_tiers.go:65-68 | the same for the day table of the fallback: the limit cuts exactly when the range holds more whole days than the limit |
| RowBudget.NoTierCutsWitness | internal/query/metrics_tiers.go:65-68 | any 1200 days whose start no tier retains, asked for in one point, touch 1201 buckets under a limit of 20, and some table loses rows |
| RowBudget.SaturatedSpanWitness | internal/query/metrics_tiers.go:53-57 | for any range of 25 times the longest Go duration whose start is retained some table is cut |
| RowBudget.ManySeriesWitness | internal/query/metrics_tiers.go:183-202 | grouped by series: for 500 named series over any retained day, asked for in 500 points, some table is cut |
| Flame.SameDisplay | internal/query/profiles.go:87-90 | two function names show the same class and function exactly when they are equal or differ by one leading separator |
| Flame.SplitJoins | internal/query/profiles.go:87-90 | class and function join to the name around its first separator, and a name without one is all function |
| Flame.CollectEdges | internal/query/profiles.go:57-67 | the adjacency lists each parent's edges in row order |
| Flame.SortEdges | internal/query/profiles.go:68-71 | every list is permuted into falling wall time, and parents stay the same |
| Flame.RowsOfCounts | internal/query/profiles.go:57-67 | each edge occurs among its parent's as often as among the rows |
| Flame.Builder.constructor | internal/query/profiles.go:75-76 | a builder starts with no nodes and an empty path |
| Flame.Builder.Build | internal/query/profiles.go:77-109 | terminates on every graph, restores the shared path, returns the kept part of the unfolding and counts exactly the nodes it returns, up to the cap |
| Flame.Builder.Visit | internal/query/profiles.go:86-106 | one loop turn numbers the node, opens its function unless it is open, and restores the path |
| Flame.UnfoldNumbered | internal/query/profiles.go:92-92 | the unfolding is numbered in preorder without gaps |
| Flame.PreorderIds | internal/query/profiles.go:86-92 | the i-th node in preorder carries number i, so each number is used once |
| Flame.KeepIsPreorderPrefix | internal/query/profiles.go:83-86 | cutting at the node cap keeps a prefix of the preorder, at the original depths |
| Flame.KeptSize | internal/query/profiles.go:83-86 | how many nodes the cap keeps |
| Flame.KeepAll | internal/query/profiles.go:83-86 | a tree within the cap is the whole unfolding |
| Flame.KeepNumbered | internal/query/profiles.go:83-92 | the cut tree is still numbered without gaps |
| Flame.UnfoldShape | internal/query/profiles.go:77-109 | after the cut every children list is a prefix of its function's edges, cycles stay cut and depths stay under the cap |
| Flame.ChainProperties | internal/query/profiles.go:99-104 | on a chain from a root, nodes with children have pairwise distinct functions and the chain has at most 24 nodes |
| Flame.FlameTree | internal/query/profiles.go:57-110 | the tree is the capped unfolding of some falling-wall-time order of the rows' adjacency |
| Flame.TreeProperties | internal/query/profiles.go:57-110 | all of the above for the returned tree, for every graph, cyclic or not |
| Flame.TreeIsWhole | internal/query/profiles.go:77-110 | nothing is left out: the roots carry the edges of the empty name; the node at the end of every chain carries all edges of its function when the chain is shorter than 24 and no earlier node of it has that function, and none otherwise; and only nodes that would be numbered past 4000 are missing |
| OamDir.ServedListsWereSupplied | internal/oamdir/oamdir.go:94-123 | in every interleaving a list returned without error was fetched or stored in L2 earlier in the run |
| OamDir.SeenListNeverFails | internal/oamdir/oamdir.go:94-117 | a call that found organizations in L1 never returns an error, whatever the fetches and other calls do |
| OamDir.LookupOfListNeverFails | internal/oamdir/oamdir.go:94-117 | the same, for a run split at the moment the call takes the lock |
| OamDir.FirstLookDecides | internal/oamdir/oamdir.go:94-117 | a call can still end in an error exactly when its first look finds L1 empty and not fresh |
| OamDir.InvokedWithListCanFail | internal/oamdir/oamdir.go:94-117 | an interleaving in which a call made while L1 held a list fails |
| OamDir.ServedListsAreBoundedlyOld | internal/oamdir/oamdir.go:94-123 | in every interleaving the age of a list served from L1 is below eleven cache lifetimes, and that of a list served by the call that installed it below ten, each plus the installing call's delay; ages do not compound |
| OamDir.Client.constructor | internal/oamdir/oamdir.go:74-76 | a new client has an empty L1 |
| OamDir.Client.LoadRedisStale | internal/oamdir/oamdir.go:126-147 | gives the stored list exactly when L2 answers with a live entry |
| OamDir.Client.Organizations | internal/oamdir/oamdir.go:87-124 | which outcome the uninterrupted call has, what it returns and its whole effect on L1 and L2: a live L2 entry is served whatever the fetch would do |
| OamDir.OutcomeCases | internal/oamdir/oamdir.go:87-124 | the outcome cases as exact conditions on the caches, L2, the directory and the configuration |
| OamDir.AtomicIsUninterrupted | internal/oamdir/oamdir.go:87-124 | the uninterrupted call is a run of the step system with the same end state and outcome, other calls untouched; its steps are listed, and it misses L2 only when L2 does not answer with a live entry |
| OamDir.NoEarlyRefresh | internal/oamdir/oamdir.go:94-99 | while L1 is fresh, calls change nothing and refresh nothing |
| OamDir.SequentialAge | internal/oamdir/oamdir.go:94-123 | in every sequential run a list served without the failure fallback is less than 11*cacheTTL old |
| OamDir.RefreshesAreSpaced | internal/oamdir/oamdir.go:22-109 | two refreshes of L1, the first with a non-nil list, are at least cacheTTL apart |
| DepKeys.ParseRoundTrip | internal/query/service_map_external.go:241-262 | scheme, host and port read back from a printed URL, whatever path follows |
| DepKeys.ParseDefaultPort | internal/query/service_map_external.go:241-262 | without a port the scheme's own port is used |
| DepKeys.InvalidExactly | internal/query/helpers.go:149-156 | a name is invalid exactly when it is one of five words in some case with any white space around it |
| DepKeys.NormaliseFields | internal/query/service_map_external.go:53-160 | a row's call has the row's caller, calls, errors and duration, and the target, type and address of its kind |
| DepKeys.CountedExactly | internal/query/service_map_external.go:27-160 | a row is kept exactly when it has calls, a valid caller, and a valid system or a valid URL that is not the caller's own; the other checks never fail |
| DepKeys.BaseOfURL | internal/query/service_map_external.go:97-106 | of a URL with a scheme the target keeps scheme, host and port |
| DepKeys.KeyInjective | internal/query/service_map_external.go:31-31 | calls with one key have the same caller, target and type when neither caller continues the other |
| DepKeys.KeysSeparateExactly | internal/query/service_map_external.go:27-160 | over all accepted calls that dependency rows can give, the key keeps the triples of a set of callers apart exactly when no valid caller among them continues another with an arrow |
| DepKeys.NoArrowIsSafe | internal/query/service_map_external.go:31-31 | in particular when no caller contains an arrow |
| DepMerge.Merger.constructor | internal/query/service_map_external.go:26-26 | the merge starts empty |
| DepMerge.Merger.Add | internal/query/service_map_external.go:27-39 | one call is rejected or added to its key's aggregate, and the map stays the merge of the accepted calls, each aggregate with the ends and address of its first call |
| DepMerge.MergeRows | internal/query/service_map_external.go:53-160 | the loops over the four row kinds yield the merge of the accepted normalised rows |
| DepMerge.MergeConserves | internal/query/service_map_external.go:27-39 | calls, errors and durations over the aggregates equal the rows' own, added up over the rows that count |
| DepMerge.OneAggregatePerTriple | internal/query/service_map_external.go:31-38 | for arrow-safe callers each accepted triple has one aggregate of its own, with exactly its sums |
| DepMerge.ArrowNamesCollide | internal/query/service_map_external.go:28-73 | otherwise there are two accepted database rows with different ends of which the merge keeps one aggregate |
| DepMerge.MergeEnds | internal/query/service_map_external.go:31-38 | the callers and targets the aggregates show are those of the first call under each key |
| ServiceMap.LoadMapThresholds | internal/query/service_map.go:200-225 | a stored row overrides a default exactly where it is positive; all thresholds are positive |
| ServiceMap.CallEdge | internal/query/service_map_external.go:165-183 | an edge's latency and error rate times its calls give back the total duration and 100 times the errors |
| ServiceMap.SpanEdges | internal/query/service_map.go:69-102 | one edge per valid row in order, the services are exactly the ends of valid rows, and health follows the edge's own rates |
| ServiceMap.EmitExternal | internal/query/service_map_external.go:162-183 | one edge per aggregate whatever the map order; the callers and targets recorded are exactly those of the aggregates |
| ServiceMap.Traffic | internal/query/service_map.go:150-158 | a service's incoming and outgoing calls over all edges |
| ServiceMap.ServiceNodes | internal/query/service_map.go:145-189 | one node per service with those totals, the service's own statistics and the health they give |
| ServiceMap.ExternalNode | internal/query/service_map_external.go:199-219 | the rates are the call-weighted means over incoming edges, and 0 without calls |
| ServiceMap.ExternalNodes | internal/query/service_map_external.go:186-222 | one node per external target |
| ServiceMap.ServeServiceMap | internal/query/service_map.go:69-191 | the assembled map: edges of both kinds, one node for exactly the names the input gives, totals and means over all edges, and statistics |
| ServiceMap.EndpointsAreNodes | internal/query/service_map.go:69-191 | both ends of every edge are nodes |
| ServiceMap.Handshake | internal/query/service_map.go:145-191 | outgoing calls over nodes equal all edge calls; incoming calls exceed them by the calls into names that the input gives both as a service and as an external target, and agree exactly when there is none |
| ServiceMap.OverlapCountsTwice | internal/query/service_map_external.go:87-116 | an input with such a name: a call to a URL without a scheme that is a service's name |
| MapHealth.MeanBelow | internal/query/service_map_external.go:199-214 | a weighted mean stays below a bound that every incoming edge stays below |
| MapHealth.ExternalHealth | internal/query/service_map_external.go:199-219 | for any thresholds a down external node has a down incoming edge, and one with only healthy edges is healthy |
| MapHealth.ExternalHealthExactly | internal/query/service_map_external.go:199-219 | an external node is down, and healthy, exactly when the weighted sums over its edges reach, or stay below, the thresholds times its calls |
| MapHealth.CommonThresholdBringsDown | internal/query/service_map_external.go:199-219 | when all edges into an external node reach the same down threshold the node is down |
| MapHealth.HealthFromRows | internal/query/service_map_external.go:27-219 | for arrow-safe callers and no span edge: an external node is down exactly when the errors of its counted rows reach downError percent of their calls or their total duration reaches downLatency per call, and likewise for healthy |
| MapHealth.HealthFromInput | internal/query/service_map_external.go:27-219 | for every service map, whatever its names: an external node is down, and healthy, exactly when the totals of span rows and of the counted dependency rows whose first row under their key goes to it reach, or stay below, the thresholds times its calls |
| MapHealth.DownEdgesNeedNotBringNodeDown | internal/query/service_map_external.go:127-219 | the converse of the health law fails: in every map of two given Redis rows both edges are down and the node is only degraded |
| MapHealth.ExternalTraffic | internal/query/service_map_external.go:162-219 | for arrow-safe callers the weighted sums over a target's edges are the sums over the accepted calls to it |
| MapHealth.SpanTraffic | internal/query/service_map.go:69-102 | the span edges into a name carry the calls and weighted rates of the valid span rows into it |
| MapHealth.MergedTraffic | internal/query/service_map_external.go:162-219 | for every merge the weighted sums over a target's edges are the sums over the accepted calls whose aggregate shows it |
| MapHealth.ExternalNodeFromRows | internal/query/service_map_external.go:27-219 | end to end: an external node without span edges shows the exact error percentage and mean duration of its counted rows |
| MapRows.NodesShown | internal/query/service_map.go:69-191 | a map has a service node for exactly the valid names that end a valid span row, call first under some key, were seen or have statistics, and an external node for exactly the targets of the first rows under their keys |
| MapRows.ServiceNodeShows | internal/query/service_map.go:104-189 | a service node shows its name's statistics, or zeros, the health they give, and as incoming calls those of all rows into it |
| MapRows.EdgeFromRows | internal/query/service_map_external.go:27-183 | every external edge has the ends, type and address of the first counted row under its key, and the calls, errors and durations of all of them |
| MapRows.RowHasEdge | internal/query/service_map_external.go:27-183 | every counted row is carried by an edge with its key |
| MapRows.ExternalEdgesDiffer | internal/query/service_map_external.go:31-183 | no two external edges have the same caller, target and type |
| MapRows.RatesAddUp | internal/query/service_map_external.go:165-183 | error and success rate of every edge add up to 100 unless the error rate exceeds it |
| ServiceMap.NodeTypeMatches | internal/query/service_map_external.go:188-198 | exactly for which rows the node type read off the name equals the dependency type of the edge |
| ServiceMap.NodeTypeOnMap | internal/query/service_map_external.go:162-219 | on every service map the node of an accepted row's target has the type of the row's edges into it exactly for those rows |
| ServiceMap.DatabaseNodeIsExternal | internal/query/service_map_external.go:53-73 | in every service map of one database row with a known host the edge is typed as a database and the node as external |
| AgentSpec.RunInvariant | internal/registry/registry.go:63-138 | over every run with a monotone clock: keys are ids, registration, last push and last sighting are ordered, the push time is set exactly when a push was marked, and the push count is the number of marked pushes mod 2^64 |
| AgentSpec.AgentsPersist | internal/registry/registry.go:63-138 | agents never vanish, and their id and registration time never change |
| AgentHistory.KnownWhenRegistered | internal/registry/registry.go:63-138 | an agent is in the registry exactly when some operation registered it, under its trimmed id or a generated one |
| AgentHistory.AgentIsItsHistory | internal/registry/registry.go:63-138 | after every run an agent's registration time is that of its first registration, its host, version, tenant and labels are those of its last one, it was last seen at its last registration, heartbeat or push, and its push time is that of its last push |
| AgentHistory.StaleExactly | internal/registry/registry.go:321-326 | after every run with a monotone clock a later read shows an agent as stale exactly when each registration, heartbeat and push of it lies more than the stale limit back, as online otherwise, and else unchanged |
| Registry.Agent.constructor | internal/registry/registry.go:95-105 | a new agent is online, seen when registered, and has no push |
| Registry.Agent.Copy | internal/registry/registry.go:92-92 | a copy shows the same data and shares labels and push time |
| Registry.Agent.Enrol | internal/registry/registry.go:85-91 | a refreshed enrolment changes the named fields alone |
| Registry.Agent.Touch | internal/registry/registry.go:119-120 | a heartbeat changes the sighting and the status alone |
| Registry.Agent.CountPush | internal/registry/registry.go:133-137 | a push gets a time cell of its own and one more in the 64-bit count |
| Registry.Registry.constructor | internal/registry/registry.go:40-48 | the registry starts empty, with the stale limit given, or five minutes when that is not positive |
| Registry.Registry.Register | internal/registry/registry.go:63-109 | the registry's view changes as the value specification says, and a fresh copy of the stored agent is returned |
| Registry.Registry.Refresh | internal/registry/registry.go:84-93 | a known id keeps its agent object and history |
| Registry.Registry.AddNew | internal/registry/registry.go:95-108 | an unknown id gets a new agent, the others stay as they were |
| Registry.Registry.Heartbeat | internal/registry/registry.go:112-123 | refreshes exactly a known agent and returns a fresh copy; an unknown id changes nothing |
| Registry.Registry.MarkPush | internal/registry/registry.go:126-138 | marks exactly a known agent; an unknown id changes nothing |
| Registry.Registry.Get | internal/registry/registry.go:141-151 | a fresh copy, stale when it was last seen more than the stale limit ago and online otherwise, without changing the registry |
| Registry.Perform | internal/registry/registry.go:63-138 | every operation in the heap is the operation of the value specification |
| Registry.HandOut | internal/registry/registry.go:63-138 | one operation of a run: every copy handed out before keeps showing what it showed, and the new copy shows what the specification hands out |
| Registry.PerformAll | internal/registry/registry.go:63-138 | every sequence of operations follows the value specification, and at its end every copy handed out before or along the run shows what it showed when it was handed out |
| Names.SortedKeys | internal/registry/registry.go:305-309 | the keys of a map in strictly increasing order, whatever the map order |
| AgentLists.List | internal/registry/registry.go:154-165 | every agent once, by strictly increasing id, with the status of the moment |
| AgentLists.ListUnique | internal/registry/registry.go:154-165 | that description fixes the list |
| AgentLists.ListShowsStale | internal/registry/registry.go:154-165 | over every run with a monotone clock the list shows as stale exactly the agents untouched for longer than the stale limit |
| AgentLists.AllowSet | internal/registry/registry.go:254-270 | the trimmed ids, without blanks and without "all" |
| AgentLists.ScopeAgents | internal/registry/registry.go:188-211 | the filtering loop agrees with the single-agent check |
| AgentLists.ListScoped | internal/registry/registry.go:171-252 | the scoped list is the sorted list filtered by the separately written single-agent check, in every auth mode and for all scope flags |
| AgentLists.AdmitsExactly | internal/registry/registry.go:214-252 | what a request admits, dimension by dimension: organization, listed projects by name, and the single project |
| AgentLists.ScopedExactly | internal/registry/registry.go:171-211 | the scoped list holds exactly the admitted agents of the full list, in its order |
| AgentLists.BlankOrganization | internal/registry/registry.go:167-181 | under enforced auth a blank or "all" organization lists nothing exactly when the request is scoped in some dimension or there are no agents |
| AgentLists.NoForeignAgents | internal/registry/registry.go:176-209 | under enforced auth an organization-scoped list holds only agents of that organization and of the projects asked for, in each of the three ways to ask |
| AgentLists.SameOrganization | internal/registry/registry.go:297-304 | two agents count for one organization exactly when theirs differ by outer white space alone, or one is blank and the other the default one |
| AgentLists.CountAgents | internal/registry/registry.go:297-304 | how many agents each organization has |
| AgentLists.Summaries | internal/registry/registry.go:297-318 | one summary per organization by strictly increasing id, whose counts add up to the number of agents |
| AgentLists.Organizations | internal/registry/registry.go:294-319 | the same for the registry: the counts add up to its agent count |
| Ingest.Writer.constructor | internal/store/clickhouse.go:26-31 | the counters start at zero |
| Ingest.Writer.RecordIngest | internal/store/clickhouse.go:83-91 | one batch, the events and the bytes are added mod 2^64, the last error is kept |
| Ingest.Writer.SetLastError | internal/store/clickhouse.go:94-105 | only the last error changes; no error clears it |
| Ingest.Handler.Record | internal/ingest/ingest.go:90-96 | the writer's counters and the registry change together |
| Ingest.Handler.ServePush | internal/ingest/ingest.go:52-107 | a push is accepted exactly when method, token, body and agent id allow, with the reply of the first check that fails; both components then change as specified, and neither changes otherwise |
| Ingest.EnrollExactly | internal/ingest/ingest.go:35-49 | without a configured token everyone may push exactly when auth is not required; with one, exactly who sends it in the header or, when that is empty, as a bearer value |
| Ingest.TablesByKind | internal/ingest/ingest.go:109-123 | four kinds name their own table in any case and padding, traces go with spans, others are kept raw |
| Ingest.CountersAgree | internal/ingest/ingest.go:80-96 | over every run batches, event totals, byte totals and every agent's push count agree with the accepted pushes, mod 2^64 |
| Ingest.PushCountsAddUp | internal/ingest/ingest.go:90-96 | push counts summed over agents equal the accepted pushes whose exact id was registered at that moment, mod 2^64 |
| Ingest.Serve | internal/ingest/ingest.go:52-107 | one event served by the hub is one step of the value model |
| Ingest.ServeAll | internal/ingest/ingest.go:52-107 | a new hub that serves any sequence of registrations, heartbeats and pushes ends with the counters and agents of the value model's run |
| Ingest.RegisteredIdsAreTrimmed | internal/registry/registry.go:65-68 | over every run the registered ids, and the ids of the pushes that were marked, are trimmed |
| Ingest.PaddedIdIsNeverMarked | internal/ingest/ingest.go:73-96 | after every run, for every token and auth setting, an accepted push with a padded id counts as a batch and marks no agent |
| Ingest.MarkedExactlyWhenTrimmed | internal/ingest/ingest.go:73-96 | an accepted push can be marked, in some run, exactly when its id is trimmed |
| Ingest.PaddedIdWitness | internal/ingest/ingest.go:73-96 | a run in which an agent registers and pushes under a padded id and its count stays at zero |
| Logs.ParseLimit | internal/query/query.go:221-230 | the page size is the one asked for up to 500, and 100 when none or none positive is asked for |
| Logs.SliceShows | internal/query/logs.go:117-118 | OFFSET and LIMIT cut this many rows, from this place |
| Logs.ServeLogs | internal/query/logs.go:125-161 | the response lists the rows in order with their times, the cursor of the last one, and has_more exactly for a full page that ends at a positive time |
| Logs.PageShows | internal/query/logs.go:84-121 | a page holds rows within the cursor, since, from, to and seven-day bounds that apply, newest first and at most limit of them; a row within the bounds that is left out is no newer than any on the page, which is then full |
| Logs.WalkLength | internal/query/logs.go:82-161 | following next_cursor, however long, takes at most floor(N/limit)+1 requests |
| Logs.WalkIsFinished | internal/query/logs.go:154-161 | a walk is whole exactly when its last page says there is no more |
| LogWalks.WalkExists | internal/query/logs.go:82-161 | for every table, request and limit some walk starts with the request and ends |
| LogWalks.WalkCompletes | internal/query/logs.go:82-161 | whatever pages a client has seen, it can go on to the end |
| Logs.WalkHasNoDuplicates | internal/query/logs.go:82-161 | no row is returned twice, and times never rise along the walk |
| Logs.MissedRows | internal/query/logs.go:82-161 | with positive times a row is missed exactly when it shares the time of the last row of a full page without being on that page |
| Logs.WalkIsComplete | internal/query/logs.go:82-161 | with distinct positive times the pages concatenate to the full newest-first list |
| Logs.TiedRowIsMissed | internal/query/logs.go:117-161 | two rows of one time and a limit of one: the walk ends without one of them |
| LogWalks.WalksListEverythingExactly | internal/query/logs.go:82-161 | with positive times, every walk over the whole table is a newest-first list of all its rows exactly when no multiple of the page size falls between two rows of equal time in the newest-first list |
| Logs.CursorForgetsSince | internal/query/logs.go:84-107 | for every request and cursor time, the continued request admits a time the request excludes exactly when the request has a lower bound |
| Logs.WalkLeavesWindow | internal/query/logs.go:84-161 | a table and a request whose own next_cursor leads to a row outside its window |
| LogWalks.WalksLeaveWindowExactly | internal/query/logs.go:84-161 | over some table and page size a walk of a request without a cursor returns a row the request excludes exactly when the request has a lower bound and its window holds a positive time |
| Replay.FlattenChunks | internal/query/rum_replay.go:78-86 | the events of all chunks, mapped, in chunk and event order |
| Replay.ChunkContributes | internal/query/rum_replay.go:78-86 | each chunk contributes its events in order, between those of the chunks around it, with its index, their own time or the chunk's, and their type with navigate renamed |
| Replay.CountTypes | internal/query/rum_replay.go:93-96 | the count of every type that occurs |
| Replay.ServeRUMReplayTimeline | internal/query/rum_replay.go:78-107 | the timeline is the stable sort of the flattened events by time and chunk, with its histogram and counts |
| Replay.TimelineIsStableByTime | internal/query/rum_replay.go:70-92 | since chunks ascend, it is the one stable sort by time alone |
| Replay.UnorderedChunksDiffer | internal/query/rum_replay.go:70-92 | the ascending order the query asks for is needed: for two events of one time in falling chunk order the two sorts differ |
| Replay.CountsAddUp | internal/query/rum_replay.go:93-104 | the counts by type add up to the event count |
| Grouping.CollectGroups | internal/query/metrics.go:358-382 | each key's group holds its rows' points in row order, with the labels of its first row |
| Grouping.GroupRangeRows | internal/query/metrics.go:342-393 | one series per key by strictly increasing key, or one series of all rows when not split |
| Grouping.SeriesShows | internal/query/metrics.go:358-392 | split by a label a series is named by that label's value and shows it alone; otherwise its name reads as its series, whose labels it shows |
| Grouping.RowContributes | internal/query/metrics.go:358-382 | a row adds its point, in its place, to the series of its label value or of its decimal, and to no other |
| Grouping.EveryRowOnce | internal/query/metrics.go:358-392 | the groups hold as many points as there are rows |
| Grouping.DecimalRoundTrip | internal/query/metrics.go:363-363 | a series id reads back from its decimal key |
| Grouping.SeriesKeptApart | internal/query/metrics.go:363-370 | without a grouping label two rows share a key exactly when they share a series |
| Grouping.ZipLabels | internal/query/metrics.go:198-212 | a label gets the value paired with its last occurrence; entries that are not strings or lack a partner are skipped |
| Matchers.ParseLabelMatchers | internal/query/metrics.go:151-182 | one matcher per non-blank input, in order; an error exactly when some input has no separator or an empty name |
| Matchers.InputCounts | internal/query/metrics.go:153-157 | an input is read, in its place, exactly when it holds more than white space, and without its padding |
| Matchers.PrintSeparator | internal/query/metrics.go:159-178 | a printed matcher is read with its own separator exactly when no separator tried earlier occurs in it |
| Matchers.CutOfPrint | internal/query/metrics.go:161-173 | cutting a printed matcher gives back its name and value exactly when the name does not hold the separator |
| Matchers.ParsePrints | internal/query/metrics.go:151-182 | what a successful parse prints is the input |
| Matchers.RoundTrip | internal/query/metrics.go:151-182 | parsing inverts printing exactly for non-empty names without their separator, text without outer white space, and no separator that is tried earlier |
| HttpCalls.Fold | internal/query/services.go:337-392 | one request added to its key's accumulator; all others keep theirs |
| HttpCalls.FoldRows | internal/query/services.go:330-394 | the map accumulates exactly the usable requests of the rows that decode |
| HttpCalls.RequestCounts | internal/query/services.go:337-345 | a request counts, in its place, exactly when it names a URL |
| HttpCalls.RowCounts | internal/query/services.go:330-336 | a row counts with its requests that count, and not at all when it does not decode |
| HttpCalls.Reports | internal/query/services.go:396-419 | one record per key, each summarising its own requests, whatever the map order |
| HttpCalls.ServeHTTPCalls | internal/query/services.go:330-424 | one record per key by falling call count, whose call counts add up to total_calls |
| HttpCalls.CallsAddUp | internal/query/services.go:357-358 | the call counts of the records add up to the requests counted |
| HttpCalls.RecordBounds | internal/query/services.go:396-418 | errors never exceed calls, the error rate lies between 0 and 100, and the average never exceeds the maximum |
| HttpCalls.OneRequest | internal/query/services.go:338-419 | what a single request adds in its own fields: names, failure, duration in milliseconds, bytes |
| HttpCalls.RecordsMerge | internal/query/services.go:356-419 | the record of two lists of requests under one key is put together from theirs: sums, call-weighted averages and extremes |
| HttpCalls.MinimumIsExact | internal/query/services.go:365-405 | the reported minimum is the shortest positive duration exactly when that lies below 999999, and 0 otherwise |
| HttpCalls.LongCallsReportZero | internal/query/services.go:354-405 | two long calls whose reported minimum is 0 |
| HttpCalls.MethodsKeptApart | internal/query/services.go:351-351 | the key keeps two methods apart for all URLs exactly when neither, followed by a space, begins the other |

## Left out

- RowBudget.LimitNeverCuts: its conditions are sufficient, not necessary; the exact condition is RowBudget.LimitCutsExactly. The calling handler clamps maxPoints to 5000, so maxPoints*20 fits.
- RowBudget.LimitCutsExactly: supposes that some key is in the statement's scope, that rollup rows lie on the tier's grid, and, when grouping, that the table's series in scope lie in the given set.
- Rollup.LastOverRollup: requires a definite last value, because argMax over tied time stamps may pick any of them.
- Rollup.RollupPreservesMeaning: quantiles (TDigest states) are not evaluated, only the level they ask for is compared (RangeAnswers.QuantileAsksItsLevel); `ORDER BY` and `LIMIT` are treated in RowBudget.
- OamDir.ServedListsAreBoundedlyOld: the bounds carry the delay between getting and installing a list, which interleavings leave unbounded; OamDir.SequentialAge has the clean bound.
- MapHealth.HealthFromRows: supposes arrow-safe callers and no span edge into the name; MapHealth.HealthFromInput does not.
- Ingest.RegisteredIdsAreTrimmed: generated ids are taken to carry no outer white space, as the hexadecimal ids of the source do.
- ClickHouse: apart from the evaluator and the paged log select, queries are rows that arrive; SQL text and escaping are replaced by a syntax tree.
- HTTP plumbing, JSON, environment, CORS, auth decisions, the OAM proxy and route wiring.
- The tenancy library: whether a request is scoped and whether auth is enforced are arbitrary booleans.
- The L2 cache's storage and encryption: L2 is an entry with an expiry that may miss at any time; the fetch succeeds with any list or fails.
- Date parsing and formatting: times are integers. Log times are whole milliseconds.
- Floating-point rounding, and `uint64` wrap-around of call sums on the service map.
- RowBudget.UnnamedSeriesExceedAnyLimit: the calling handler always names series when it groups; RowBudget.ManySeriesWitness is the case that it sends.
- Locks of the registry and atomicity of the counters: runs are sequences of whole operations. Only the cache is modelled with interleaving.
- `total_ms` of the flame graph, the percentile, byte and throughput columns of the service map, the join, facets and histogram of the logs page, and the per-type fields of replay events beyond time, type and chunk.
- DepKeys.NormaliseFields: the port that a database row without one gets is read from the source's table of default ports, which is taken over as it is.
- Unicode case folding: lower-casing covers ASCII letters.
- The remaining readers (alerts, SLOs, synthetics, RUM metrics, diagnostics, databases, dumps), which copy rows.

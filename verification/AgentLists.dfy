/** The registry's reads: the sorted list, the tenant-scoped list and the organization counts. */
module AgentLists {
  import opened Strings
  import opened Sorting
  import opened Sums
  import opened Names
  import opened AgentSpec
  import opened AgentHistory
  import R = Registry

  // ----- List -----

  ghost predicate SortedById(list: seq<AgentData>) {
    forall i, j :: 0 <= i < j < |list| ==> Less(list[i].id, list[j].id)
  }

  /** Every registered agent, once, by strictly increasing id. */
  ghost predicate IsList(s: State, staleAfter: int, now: int, list: seq<AgentData>) {
    && SortedById(list)
    && (forall a :: a in list <==> exists id :: id in s && a == Shown(s[id], staleAfter, now))
    && |list| == |s|
  }

  function ById(): (AgentData, AgentData) -> bool { (a: AgentData, b: AgentData) => AtMost(a.id, b.id) }

  lemma ByIdTotal()
    ensures TotalPreorder(ById())
  {
    forall a: AgentData, b: AgentData ensures ById()(a, b) || ById()(b, a) { AtMostIsTotalPreorder(a.id, b.id, b.id); }
    forall a: AgentData, b: AgentData, c: AgentData | ById()(a, b) && ById()(b, c) ensures ById()(a, c) {
      AtMostIsTotalPreorder(a.id, b.id, c.id);
    }
  }

  /** The list is determined by the registry's contents and the clock. */
  lemma ListUnique(s: State, staleAfter: int, now: int, a: seq<AgentData>, b: seq<AgentData>)
    requires IsList(s, staleAfter, now, a) && IsList(s, staleAfter, now, b)
    ensures a == b
  {
    var lt := (x: AgentData, y: AgentData) => Less(x.id, y.id);
    forall x: AgentData, y: AgentData ensures !(lt(x, y) && lt(y, x)) { LessTrichotomy(x.id, y.id); }
    StrictlySortedUnique(lt, a, b);
  }

  /** Some order of the ids, and the agents in that order. */
  ghost predicate Enumerates(s: State, agents: seq<AgentData>, ids: seq<string>) {
    && Distinct(ids) && Elems(ids) == s.Keys && |agents| == |ids|
    && forall i :: 0 <= i < |ids| ==> ids[i] in s && agents[i] == s[ids[i]]
  }

  /** Ranging over the agent map: every agent once, in no particular order. */
  method AllAgents(r: R.Registry) returns (agents: seq<AgentData>, ghost ids: seq<string>)
    requires r.Valid()
    ensures Enumerates(r.View(), agents, ids)
    ensures forall id :: id in r.View() ==> r.View()[id].id == id
    ensures r.View().Keys == r.agents.Keys
  {
    agents, ids := [], [];
    var todo := r.agents.Keys;
    while todo != {}
      invariant todo <= r.agents.Keys && Distinct(ids) && Elems(ids) == r.agents.Keys - todo && |agents| == |ids|
      invariant forall i :: 0 <= i < |ids| ==> ids[i] in r.agents && agents[i] == r.agents[ids[i]].Data()
    {
      hide R.Agent.Data;
      var id :| id in todo;
      assert id !in Elems(ids);
      assert Elems(ids + [id]) == Elems(ids) + {id};
      agents, ids := agents + [r.agents[id].Data()], ids + [id];
      todo := todo - {id};
    }
    forall id | id in r.View() ensures r.View()[id].id == id { assert r.agents[id].id == id; }
  }

  method List(r: R.Registry, now: int) returns (out: seq<AgentData>)
    requires r.Valid()
    ensures IsList(old(r.View()), r.staleAfter, now, out)
  {
    var agents, ids := AllAgents(r);
    ghost var s := r.View();
    assert s == old(r.View());
    out := SortedShown(s, ids, agents, r.staleAfter, now);
  }

  method SortedShown(ghost s: State, ghost ids: seq<string>, agents: seq<AgentData>, staleAfter: int, now: int)
      returns (out: seq<AgentData>)
    requires Enumerates(s, agents, ids) && forall id :: id in s ==> s[id].id == id
    ensures IsList(s, staleAfter, now, out)
  {
    out := [];
    for i := 0 to |agents|
      invariant |out| == i && forall k :: 0 <= k < i ==> out[k] == Shown(agents[k], staleAfter, now)
    {
      var cp := agents[i];
      cp := cp.(status := StatusAt(cp.lastSeenAt, staleAfter, now));
      out := out + [cp];
    }
    ByIdTotal();
    EnumerationLength(s, agents, ids);
    ghost var collected := out;
    out := SortSlice(ById(), out);
    SortedCollection(s, staleAfter, now, ids, collected, out);
  }

  lemma SortedCollection(s: State, staleAfter: int, now: int, ids: seq<string>, collected: seq<AgentData>,
      out: seq<AgentData>)
    requires forall id :: id in s ==> s[id].id == id
    requires Distinct(ids) && Elems(ids) == s.Keys && |ids| == |collected| == |s|
    requires forall i :: 0 <= i < |ids| ==> ids[i] in s && collected[i] == Shown(s[ids[i]], staleAfter, now)
    requires Sorted(ById(), out) && multiset(out) == multiset(collected)
    ensures IsList(s, staleAfter, now, out)
  {
    forall a ensures a in out <==> exists id :: id in s && a == Shown(s[id], staleAfter, now) {
      assert a in out <==> a in multiset(collected);
      if id :| id in s && a == Shown(s[id], staleAfter, now) {
        assert id in Elems(ids);
        var i :| 0 <= i < |ids| && ids[i] == id;
        assert collected[i] == a;
      }
    }
    assert |out| == |multiset(out)| == |collected|;
    var idOf := (a: AgentData) => a.id;
    DistinctKeysPermuted(collected, out, idOf);
    forall i, j | 0 <= i < j < |out| ensures Less(out[i].id, out[j].id) {
      assert ById()(out[i], out[j]) && idOf(out[i]) != idOf(out[j]);
      LessTrichotomy(out[i].id, out[j].id);
    }
  }

  // ----- Tenant scope -----

  const ALL := "all"
  const DEFAULT_ORG := "default-org"
  const DEFAULT_PROJECT := "default-project"

  /**
   * A request's tenant. Whether each dimension is scoped is decided by the tenancy library, which is
   * not part of this model, so the two flags are arbitrary.
   */
  datatype Context = Context(
    organizationID: string, projectID: string, projectIDs: seq<string>, orgScoped: bool, projectScoped: bool)

  /** The project ids a request lists, trimmed, without blanks and without "all" in any case. */
  function ProjectIDAllowSet(ids: seq<string>): set<string> {
    set id | id in ids && TrimSpace(id) != "" && ToLower(TrimSpace(id)) != ALL :: TrimSpace(id)
  }

  method AllowSet(ids: seq<string>) returns (out: set<string>)
    ensures out == ProjectIDAllowSet(ids)
  {
    hide TrimSpace, ToLower;
    out := {};
    for i := 0 to |ids|
      invariant out == ProjectIDAllowSet(ids[..i])
    {
      assert ids[..i + 1] == ids[..i] + [ids[i]];
      var id := TrimSpace(ids[i]);
      if id == "" || ToLower(id) == ALL {
        continue;
      }
      out := out + {id};
    }
    assert ids[..|ids|] == ids;
  }

  /** Whether an agent matches a request's tenant. */
  function AgentInScope(a: AgentData, ctx: Context, authEnforced: bool): bool {
    if !ctx.orgScoped && !ctx.projectScoped then true
    else if authEnforced && (ctx.organizationID == "" || ctx.organizationID == ALL) then false
    else
      var proj :=
        if authEnforced && ctx.projectIDs == [] && (ctx.projectID == "" || ctx.projectID == ALL) then DEFAULT_PROJECT
        else ctx.projectID;
      var aOrg, aProj := OrDefault(a.org, DEFAULT_ORG), OrDefault(a.project, DEFAULT_PROJECT);
      if ctx.orgScoped && aOrg != ctx.organizationID then false
      else if ProjectIDAllowSet(ctx.projectIDs) != {} then aProj in ProjectIDAllowSet(ctx.projectIDs)
      else !(ctx.projectScoped && aProj != proj)
  }

  /** The agents of a list that are in scope, in order. */
  ghost function InScope(list: seq<AgentData>, ctx: Context, authEnforced: bool): seq<AgentData> {
    if list == [] then []
    else
      var a := list[|list| - 1];
      InScope(list[..|list| - 1], ctx, authEnforced) + if AgentInScope(a, ctx, authEnforced) then [a] else []
  }

  /** The scoped list is the sorted list, filtered by the check a single `Get` applies. */
  method ListScoped(r: R.Registry, ctx: Context, authEnforced: bool, now: int)
      returns (out: seq<AgentData>, ghost all: seq<AgentData>)
    requires r.Valid()
    ensures IsList(old(r.View()), r.staleAfter, now, all)
    ensures out == InScope(all, ctx, authEnforced)
  {
    hide TrimSpace, ToLower, IsList, ProjectIDAllowSet, R.Registry.View;
    var list := List(r, now);
    all := list;
    if !ctx.orgScoped && !ctx.projectScoped {
      UnscopedKeepsAll(list, ctx, authEnforced);
      return list, list;
    }
    var org, proj := ctx.organizationID, ctx.projectID;
    if authEnforced {
      if org == "" || org == ALL {
        NothingInScope(list, ctx);
        return [], list;
      }
      if |ctx.projectIDs| == 0 && (proj == "" || proj == ALL) {
        proj := DEFAULT_PROJECT;
      }
    }
    out := ScopeAgents(list, ctx, authEnforced, org, proj);
  }

  /** The filtering loop, for a request that may list something. */
  method ScopeAgents(list: seq<AgentData>, ctx: Context, authEnforced: bool, org: string, proj: string)
      returns (out: seq<AgentData>)
    requires ctx.orgScoped || ctx.projectScoped
    requires org == ctx.organizationID && !(authEnforced && (org == "" || org == ALL))
    requires proj == if authEnforced && ctx.projectIDs == [] && (ctx.projectID == "" || ctx.projectID == ALL)
                     then DEFAULT_PROJECT else ctx.projectID
    ensures out == InScope(list, ctx, authEnforced)
  {
    hide TrimSpace, ToLower, ProjectIDAllowSet;
    var allow := AllowSet(ctx.projectIDs);
    out := [];
    assert list[..0] == [];
    for i := 0 to |list|
      invariant out == InScope(list[..i], ctx, authEnforced)
    {
      assert list[..i + 1][..i] == list[..i];
      assert out + [] == out;
      var a := list[i];
      var aOrg := a.org;
      if aOrg == "" { aOrg := DEFAULT_ORG; }
      var aProj := a.project;
      if aProj == "" { aProj := DEFAULT_PROJECT; }
      if ctx.orgScoped && aOrg != org {
        continue;
      }
      if allow != {} {
        if aProj !in allow {
          continue;
        }
      } else if ctx.projectScoped && aProj != proj {
        continue;
      }
      out := out + [a];
    }
    assert list[..|list|] == list;
  }

  lemma {:induction false} UnscopedKeepsAll(list: seq<AgentData>, ctx: Context, authEnforced: bool)
    requires !ctx.orgScoped && !ctx.projectScoped
    ensures InScope(list, ctx, authEnforced) == list
  {
    if list != [] { UnscopedKeepsAll(list[..|list| - 1], ctx, authEnforced); }
  }

  lemma {:induction false} NothingInScope(list: seq<AgentData>, ctx: Context)
    requires (ctx.orgScoped || ctx.projectScoped) && (ctx.organizationID == "" || ctx.organizationID == ALL)
    ensures InScope(list, ctx, true) == []
  {
    if list != [] { NothingInScope(list[..|list| - 1], ctx); }
  }

  /**
   * The comment on the scoped list promises nothing for a blank or "all" organization under enforced
   * auth. The code keeps that exactly when the request counts as scoped in some dimension.
   */
  lemma {:induction false} BlankOrganization(list: seq<AgentData>, ctx: Context)
    requires ctx.organizationID == "" || ctx.organizationID == ALL
    ensures InScope(list, ctx, true) == [] <==> list == [] || ctx.orgScoped || ctx.projectScoped
  {
    hide InScope;
    if ctx.orgScoped || ctx.projectScoped {
      NothingInScope(list, ctx);
    } else {
      UnscopedKeepsAll(list, ctx, true);
    }
  }

  /**
   * Under enforced auth with the organization dimension scoped, only agents of the very organization asked for
   * are listed, and only of the listed projects, the one named, or the default one.
   */
  lemma {:induction false} NoForeignAgents(list: seq<AgentData>, ctx: Context, a: AgentData)
    requires ctx.orgScoped && a in InScope(list, ctx, true)
    ensures a in list
    ensures OrDefault(a.org, DEFAULT_ORG) == ctx.organizationID && ctx.organizationID != "" && ctx.organizationID != ALL
    ensures ProjectIDAllowSet(ctx.projectIDs) != {} ==>
              OrDefault(a.project, DEFAULT_PROJECT) in ProjectIDAllowSet(ctx.projectIDs)
    ensures ctx.projectScoped && ctx.projectIDs == [] ==>
              OrDefault(a.project, DEFAULT_PROJECT)
              == if ctx.projectID == "" || ctx.projectID == ALL then DEFAULT_PROJECT else ctx.projectID
    ensures ctx.projectScoped && ctx.projectIDs != [] && ProjectIDAllowSet(ctx.projectIDs) == {} ==>
              OrDefault(a.project, DEFAULT_PROJECT) == ctx.projectID
  {
    hide TrimSpace, ToLower;
    if a in InScope(list[..|list| - 1], ctx, true) {
      NoForeignAgents(list[..|list| - 1], ctx, a);
    }
  }

  /** A listed project id that names a project: not blank and not "all" in any case. */
  predicate NamesProject(id: string) { TrimSpace(id) != "" && ToLower(TrimSpace(id)) != ALL }

  /**
   * What a request admits, dimension by dimension: everything when it is unscoped; under enforced auth
   * nothing without an organization; the agent's organization must be the one asked for; and its project
   * one of those listed by name, or, when none is, the one asked for.
   */
  ghost predicate Admits(a: AgentData, ctx: Context, authEnforced: bool) {
    var org := if a.org == "" then "default-org" else a.org;
    var project := if a.project == "" then "default-project" else a.project;
    var named := exists id :: id in ctx.projectIDs && NamesProject(id);
    var single := if authEnforced && ctx.projectIDs == [] && (ctx.projectID == "" || ctx.projectID == "all")
                  then "default-project" else ctx.projectID;
    (ctx.orgScoped || ctx.projectScoped) ==>
      && (authEnforced ==> ctx.organizationID != "" && ctx.organizationID != "all")
      && (ctx.orgScoped ==> org == ctx.organizationID)
      && (named ==> exists id :: id in ctx.projectIDs && NamesProject(id) && TrimSpace(id) == project)
      && (!named && ctx.projectScoped ==> project == single)
  }

  lemma AdmitsExactly(a: AgentData, ctx: Context, authEnforced: bool)
    ensures AgentInScope(a, ctx, authEnforced) <==> Admits(a, ctx, authEnforced)
  {
    hide TrimSpace, ToLower;
    if id :| id in ctx.projectIDs && NamesProject(id) { assert TrimSpace(id) in ProjectIDAllowSet(ctx.projectIDs); }
    if p :| p in ProjectIDAllowSet(ctx.projectIDs) {
      var id :| id in ctx.projectIDs && TrimSpace(id) == p && NamesProject(id);
    }
  }

  /** The scoped list holds exactly the admitted agents of the full list, in its order. */
  lemma {:induction false} ScopedExactly(list: seq<AgentData>, ctx: Context, authEnforced: bool)
    requires SortedById(list)
    ensures SortedById(InScope(list, ctx, authEnforced))
    ensures forall a :: a in InScope(list, ctx, authEnforced) <==> a in list && Admits(a, ctx, authEnforced)
  {
    hide Admits, AgentInScope;
    if list != [] {
      var before, last := list[..|list| - 1], list[|list| - 1];
      ScopedExactly(before, ctx, authEnforced);
      AdmitsExactly(last, ctx, authEnforced);
      assert list == before + [last];
      forall a | a in before ensures Less(a.id, last.id) { var i :| 0 <= i < |before| && list[i] == a; }
      forall x | x in InScope(before, ctx, authEnforced) ensures Less(x.id, last.id) { }
    }
  }

  /** Over every run with a monotone clock, the list shows the agents untouched for too long as stale, and no others. */
  lemma ListShowsStale(ops: seq<Op>, staleAfter: int, now: int, list: seq<AgentData>, a: AgentData)
    requires Monotone(ops) && NoLaterThan(ops, now)
    requires IsList(Run(map[], ops), staleAfter, now, list) && a in list
    ensures a.status == "stale" <==> forall i :: Touches(ops, i, a.id) ==> now - ops[i].now > staleAfter
    ensures a.status == "online" <==> exists i :: Touches(ops, i, a.id) && now - ops[i].now <= staleAfter
  {
    hide Run, Touches, Pushes;
    RunInvariant(ops, now);
    var id :| id in Run(map[], ops) && a == Shown(Run(map[], ops)[id], staleAfter, now);
    StaleExactly(ops, id, staleAfter, now);
  }

  // ----- Organizations -----

  datatype OrganizationSummary = OrganizationSummary(id: string, agentCount: int, source: string)

  function CountOf(o: OrganizationSummary): int { o.agentCount }

  function IdOf(o: OrganizationSummary): string { o.id }

  function OrgOf(a: AgentData): string { OrDefault(TrimSpace(a.org), "default-org") }

  /**
   * Two agents count for the same organization exactly when their organizations differ by outer white space
   * alone, or when one is blank and the other the default one; and no organization id is blank or padded.
   */
  lemma SameOrganization(a: AgentData, b: AgentData)
    ensures OrgOf(a) == OrgOf(b) <==>
      || TrimSpace(a.org) == TrimSpace(b.org)
      || (TrimSpace(a.org) == "" && TrimSpace(b.org) == "default-org")
      || (TrimSpace(a.org) == "default-org" && TrimSpace(b.org) == "")
    ensures OrgOf(a) != "" && TrimSpace(OrgOf(a)) == OrgOf(a)
  {
    TrimIdempotent(a.org);
    var d := "default-org";
    assert TrimLeft(d) == d && TrimRight(d) == d;
  }

  /**
   * One summary per organization that has agents, by strictly increasing id, counting its agents;
   * the counts add up to the number of agents.
   */
  method Organizations(r: R.Registry)
      returns (out: seq<OrganizationSummary>, ghost agents: seq<AgentData>, ghost ids: seq<string>)
    requires r.Valid()
    ensures Enumerates(old(r.View()), agents, ids)
    ensures forall i, j :: 0 <= i < j < |out| ==> Less(out[i].id, out[j].id)
    ensures forall o :: o in out ==>
      o.agentCount == KeySum(agents, OrgOf, o.id, Unit<AgentData>) > 0 && o.source == "agent_registry"
    ensures forall a :: a in agents ==> exists o :: o in out && o.id == OrgOf(a)
    ensures Sum(out, CountOf) == |old(r.agents)|
  {
    var list;
    list, ids := AllAgents(r);
    agents := list;
    assert r.View() == old(r.View());
    EnumerationLength(r.View(), agents, ids);
    assert |agents| == |r.agents|;
    out := Summaries(list);
  }

  method Summaries(agents: seq<AgentData>) returns (out: seq<OrganizationSummary>)
    ensures forall i, j :: 0 <= i < j < |out| ==> Less(out[i].id, out[j].id)
    ensures forall o :: o in out ==>
      o.agentCount == KeySum(agents, OrgOf, o.id, Unit<AgentData>) > 0 && o.source == "agent_registry"
    ensures forall a :: a in agents ==> exists o :: o in out && o.id == OrgOf(a)
    ensures Sum(out, CountOf) == |agents|
  {
    hide TrimSpace, KeySum, OrgOf;
    var counts := CountAgents(agents);
    var keys := SortedKeys(counts.Keys);
    out := [];
    for i := 0 to |keys|
      invariant |out| == i
      invariant forall k :: 0 <= k < i ==> out[k] == OrganizationSummary(keys[k], counts[keys[k]], "agent_registry")
    {
      out := out + [OrganizationSummary(keys[i], counts[keys[i]], "agent_registry")];
    }
    forall a | a in agents ensures exists o :: o in out && o.id == OrgOf(a) {
      assert HasAgents(agents, OrgOf(a));
      var k :| 0 <= k < |keys| && keys[k] == OrgOf(a);
      assert out[k] in out;
    }
    OrganizationTotals(agents, keys, out);
  }

  /** `counts` gives, for every organization that has agents, how many. */
  ghost predicate CountsOk(agents: seq<AgentData>, counts: map<string, int>) {
    && (forall k :: k in counts <==> HasAgents(agents, k))
    && forall k :: k in counts ==> counts[k] == KeySum(agents, OrgOf, k, Unit<AgentData>) > 0
  }

  method CountAgents(agents: seq<AgentData>) returns (counts: map<string, int>)
    ensures CountsOk(agents, counts)
  {
    hide TrimSpace, CountsOk;
    counts := map[];
    NoCounts();
    assert agents[..0] == [];
    for i := 0 to |agents|
      invariant CountsOk(agents[..i], counts)
    {
      var org := TrimSpace(agents[i].org);
      if org == "" { org := "default-org"; }
      assert agents[..i + 1] == agents[..i] + [agents[i]];
      CountOneMore(agents[..i], agents[i], counts);
      counts := counts[org := (if org in counts then counts[org] else 0) + 1];
    }
    assert agents[..|agents|] == agents;
  }

  ghost predicate HasAgents(agents: seq<AgentData>, k: string) {
    exists a :: a in agents && OrgOf(a) == k
  }

  lemma NoCounts()
    ensures CountsOk([], map[])
  {
  }

  lemma CountOneMore(agents: seq<AgentData>, d: AgentData, counts: map<string, int>)
    requires CountsOk(agents, counts)
    ensures var org := OrgOf(d); CountsOk(agents + [d], counts[org := (if org in counts then counts[org] else 0) + 1])
  {
    hide OrgOf, KeySum;
    var org := OrgOf(d);
    var counts' := counts[org := (if org in counts then counts[org] else 0) + 1];
    forall k ensures k in counts' <==> HasAgents(agents + [d], k) {
      if k == org { assert d in agents + [d]; }
      if HasAgents(agents, k) { var a :| a in agents && OrgOf(a) == k; assert a in agents + [d]; }
    }
    forall k | k in counts' ensures counts'[k] == KeySum(agents + [d], OrgOf, k, Unit<AgentData>) > 0 {
      KeySumSnoc(agents, d, OrgOf, k, Unit<AgentData>);
      if k !in counts { NoneCounted(agents, k); }
    }
  }

  lemma {:induction false} NoneCounted(agents: seq<AgentData>, k: string)
    requires forall a :: a in agents ==> OrgOf(a) != k
    ensures KeySum(agents, OrgOf, k, Unit<AgentData>) == 0
  {
    if agents != [] {
      assert agents[0] in agents;
      NoneCounted(agents[1..], k);
    }
  }

  lemma OrganizationTotals(agents: seq<AgentData>, keys: seq<string>, out: seq<OrganizationSummary>)
    requires Distinct(keys) && |out| == |keys| && forall a :: a in agents ==> OrgOf(a) in keys
    requires forall i :: 0 <= i < |keys| ==>
      out[i].id == keys[i] && out[i].agentCount == KeySum(agents, OrgOf, keys[i], Unit<AgentData>)
    ensures Sum(out, CountOf) == |agents|
  {
    SumOfGroups(agents, OrgOf, Unit<AgentData>, out, IdOf, CountOf, keys);
    PartitionTotal(agents, OrgOf, keys, Unit<AgentData>);
    SumOfUnits(agents);
  }

  lemma EnumerationLength(s: State, agents: seq<AgentData>, ids: seq<string>)
    requires Enumerates(s, agents, ids)
    ensures |agents| == |s|
  {
    DistinctLength(ids);
    assert |s| == |s.Keys|;
  }

  lemma {:induction false} DistinctLength(ids: seq<string>)
    requires Distinct(ids)
    ensures |Elems(ids)| == |ids|
  {
    if ids != [] {
      DistinctLength(ids[1..]);
      assert Elems(ids) == {ids[0]} + Elems(ids[1..]);
    }
  }
}

/** The in-memory agent registry: mutable agents behind a map, handed out as copies. */
module Registry {
  import opened Prelude
  import opened Strings
  import opened AgentSpec

  /** The cell a `*time.Time` points to. A copied agent shares it with the stored one. */
  class TimeCell {
    var t: int

    constructor (t: int)
      ensures this.t == t
    {
      this.t := t;
    }
  }

  /** A label map. A copied agent shares it with the stored one. */
  class LabelMap {
    var m: map<string, string>

    constructor (m: map<string, string>)
      ensures this.m == m
    {
      this.m := m;
    }
  }

  class Agent {
    var id: string
    var hostname: string
    var version: string
    var org: string
    var project: string
    var labels: LabelMap?
    var status: string
    var registeredAt: int
    var lastSeenAt: int
    var lastPushAt: TimeCell?
    var pushCount: int

    constructor (id: string, hostname: string, version: string, org: string, project: string, labels: LabelMap?,
        now: int)
      ensures Data() == AgentData(id, hostname, version, org, project, LabelsOf(labels), "online", now, now, None, 0)
      ensures this.labels == labels && lastPushAt == null && this.id == id
    {
      this.id, this.hostname, this.version, this.org, this.project := id, hostname, version, org, project;
      this.labels, status, registeredAt, lastSeenAt, lastPushAt, pushCount := labels, "online", now, now, null, 0;
    }

    /** `cp := *a`. */
    constructor Copy(a: Agent)
      ensures Data() == a.Data() && labels == a.labels && lastPushAt == a.lastPushAt
    {
      id, hostname, version, org, project := a.id, a.hostname, a.version, a.org, a.project;
      labels, status, registeredAt, lastSeenAt := a.labels, a.status, a.registeredAt, a.lastSeenAt;
      lastPushAt, pushCount := a.lastPushAt, a.pushCount;
    }

    method Enrol(host: string, version: string, org: string, project: string, labels: LabelMap?, now: int)
      modifies this
      ensures Data() == old(Data()).(hostname := host, version := version, org := org, project := project,
                                     labels := old(LabelsOf(labels)), lastSeenAt := now, status := "online")
      ensures id == old(id)
    {
      hostname := host;
      this.version := version;
      this.org := org;
      this.project := project;
      this.labels := labels;
      lastSeenAt := now;
      status := "online";
    }

    method Touch(now: int)
      modifies this
      ensures Data() == old(Data()).(lastSeenAt := now, status := "online")
      ensures id == old(id)
    {
      lastSeenAt := now;
      status := "online";
    }

    method CountPush(now: int)
      modifies this
      ensures Data() == old(Data()).(lastSeenAt := now, lastPushAt := Some(now),
                                     pushCount := (old(Data()).pushCount + 1) % TWO64, status := "online")
      ensures id == old(id)
    {
      var cell := new TimeCell(now);
      lastSeenAt := now;
      lastPushAt := cell;
      pushCount := (pushCount + 1) % TWO64;
      status := "online";
    }

    /** Everything a reader can see through this agent, shared parts included. */
    function Data(): AgentData
      reads this, labels, lastPushAt
    {
      AgentData(id, hostname, version, org, project, LabelsOf(labels), status, registeredAt, lastSeenAt,
                if lastPushAt == null then None else Some(lastPushAt.t), pushCount)
    }
  }

  function LabelsOf(labels: LabelMap?): Option<map<string, string>>
    reads labels
  {
    if labels == null then None else Some(labels.m)
  }

  class Registry {
    var agents: map<string, Agent>
    const staleAfter: int

    constructor (staleAfter: int)
      ensures Valid() && View() == map[] && agents == map[]
      ensures this.staleAfter == if staleAfter <= 0 then 5 * 60 * 1_000_000_000 else staleAfter
    {
      agents := map[];
      this.staleAfter := if staleAfter <= 0 then 300_000_000_000 else staleAfter;
    }

    ghost predicate Valid()
      reads this, agents.Values
    {
      forall id :: id in agents ==> agents[id].id == id
    }

    /** The objects the stored agents share with their copies. */
    ghost function Shared(): set<object>
      reads this, agents.Values
    {
      (set a | a in agents.Values && a.labels != null :: a.labels)
      + (set a | a in agents.Values && a.lastPushAt != null :: a.lastPushAt)
    }

    ghost function View(): State
      reads this, agents.Values, Shared()
    {
      map id | id in agents :: agents[id].Data()
    }

    /** Enrols an agent or refreshes its enrolment; returns a copy. */
    method Register(agentID: string, hostname: string, version: string, organizationID: string, projectID: string,
                    labels: LabelMap?, generated: string, now: int) returns (cp: Agent)
      requires Valid()
      modifies this, agents.Values
      ensures Valid() && fresh(agents.Values - old(agents.Values)) && fresh(cp) && cp !in agents.Values
      ensures var req := Request(agentID, hostname, version, organizationID, projectID, old(LabelsOf(labels)));
              && View() == AgentSpec.Register(old(View()), req, generated, now)
              && IdFor(agentID, generated) in View()
              && cp.Data() == View()[IdFor(agentID, generated)]
    {
      hide TrimSpace;
      var id := TrimSpace(agentID);
      if id == "" { id := generated; }
      var org := organizationID;
      if org == "" { org := "default-org"; }
      var project := projectID;
      if project == "" { project := "default-project"; }
      var host := hostname;
      if host == "" { host := "unknown"; }
      if id in agents {
        cp := Refresh(id, host, version, org, project, labels, now);
      } else {
        cp := AddNew(id, host, version, org, project, labels, now);
      }
    }

    method Refresh(id: string, host: string, version: string, org: string, project: string, labels: LabelMap?, now: int)
        returns (cp: Agent)
      requires Valid() && id in agents
      modifies agents.Values
      ensures Valid() && agents == old(agents) && fresh(cp)
      ensures View() == AgentSpec.Enrol(old(View()), id, host, version, org, project, old(LabelsOf(labels)), now)
      ensures cp.Data() == View()[id]
    {
      var existing := agents[id];
      existing.Enrol(host, version, org, project, labels, now);
      cp := new Agent.Copy(existing);
      OthersUntouched(existing);
    }

    method AddNew(id: string, host: string, version: string, org: string, project: string, labels: LabelMap?, now: int)
        returns (cp: Agent)
      requires Valid() && id !in agents
      modifies this
      ensures Valid() && fresh(agents.Values - old(agents.Values)) && fresh(cp) && cp !in agents.Values
      ensures View() == AgentSpec.Enrol(old(View()), id, host, version, org, project, old(LabelsOf(labels)), now)
      ensures id in agents && cp.Data() == View()[id]
    {
      var a := new Agent(id, host, version, org, project, labels, now);
      agents := agents[id := a];
      cp := new Agent.Copy(a);
      AgentAdded(a);
    }

    method Heartbeat(agentID: string, now: int) returns (cp: Agent?, ok: bool)
      requires Valid()
      modifies agents.Values
      ensures Valid() && agents == old(agents)
      ensures View() == AgentSpec.Heartbeat(old(View()), agentID, now)
      ensures ok <==> agentID in agents
      ensures cp != null <==> ok
      ensures ok ==> fresh(cp) && cp.Data() == View()[agentID]
    {
      if agentID !in agents {
        return null, false;
      }
      var a := agents[agentID];
      a.Touch(now);
      cp := new Agent.Copy(a);
      ok := true;
      OthersUntouched(a);
    }

    method MarkPush(agentID: string, now: int)
      requires Valid()
      modifies agents.Values
      ensures Valid() && agents == old(agents)
      ensures View() == AgentSpec.MarkPush(old(View()), agentID, now)
    {
      if agentID !in agents {
        return;
      }
      var a := agents[agentID];
      a.CountPush(now);
      OthersUntouched(a);
    }

    /** After a change to `a` alone, the view differs in `a` alone. */
    twostate lemma OthersUntouched(a: Agent)
      requires old(Valid()) && a in old(agents.Values) && agents == old(agents)
      requires a.id == old(a.id)
      requires forall b :: b in agents.Values && b != a ==> unchanged(b)
      requires forall o: object :: o in old(Shared()) ==> unchanged(o)
      ensures Valid()
      ensures a.id in agents && agents[a.id] == a
      ensures View() == old(View())[a.id := a.Data()]
    {
      hide Agent.Data, Shared;
      var k0 :| k0 in agents && agents[k0] == a;
      assert k0 == old(a.id);
      forall k | k in agents && k != a.id ensures agents[k].id == k && agents[k].Data() == old(agents[k].Data()) {
        assert old(agents[k].id) == k;
        assert agents[k] in agents.Values && agents[k] != a;
        DataUntouched(agents[k]);
      }
    }

    twostate lemma DataUntouched(b: Agent)
      requires b in old(agents.Values) && unchanged(b)
      requires forall o: object :: o in old(Shared()) ==> unchanged(o)
      ensures b.Data() == old(b.Data())
    {
      if b.labels != null { assert b.labels in old(Shared()); }
      if b.lastPushAt != null { assert b.lastPushAt in old(Shared()); }
    }

    /** After an agent with a new id was stored, the view has that agent too. */
    twostate lemma AgentAdded(new a: Agent)
      requires old(Valid()) && a.id !in old(agents) && agents == old(agents)[a.id := a]
      requires forall b :: b in old(agents.Values) ==> unchanged(b)
      requires forall o: object :: o in old(Shared()) ==> unchanged(o)
      ensures Valid()
      ensures View() == old(View())[a.id := a.Data()]
    {
      hide Shared;
      forall k | k in old(agents) ensures agents[k].id == k && agents[k].Data() == old(agents[k].Data()) {
        assert old(agents[k].id) == k && agents[k] == old(agents[k]);
        assert agents[k] in old(agents.Values);
        DataUntouched(agents[k]);
      }
    }

    method Get(id: string, now: int) returns (cp: Agent?, ok: bool)
      requires Valid()
      ensures ok <==> id in agents
      ensures ok ==> cp != null && fresh(cp)
      ensures ok ==> cp.Data() == Shown(View()[id], staleAfter, now)
      ensures ok ==> cp.Data().status == if now - View()[id].lastSeenAt > staleAfter then "stale" else "online"
    {
      if id !in agents {
        return null, false;
      }
      var a := agents[id];
      cp := new Agent.Copy(a);
      cp.status := StatusAt(a.lastSeenAt, staleAfter, now);
      ok := true;
    }
  }

  /** A registration as the value specification sees it. */
  ghost function RequestOf(op: HeapOp): Request
    requires op.HRegister?
    reads op.labels
  {
    Request(op.agentID, op.hostname, op.version, op.org, op.project, LabelsOf(op.labels))
  }

  /** An operation as the caller makes it, with its label map in the heap. */
  datatype HeapOp =
    | HRegister(agentID: string, hostname: string, version: string, org: string, project: string,
                labels: LabelMap?, generated: string, now: int)
    | HHeartbeat(agentID: string, now: int)
    | HPush(agentID: string, now: int)

  ghost function ValueOp(op: HeapOp): Op
    reads if op.HRegister? then {op.labels} else {}
  {
    match op
    case HRegister(_, _, _, _, _, _, generated, now) => OpRegister(RequestOf(op), generated, now)
    case HHeartbeat(id, now) => OpHeartbeat(id, now)
    case HPush(id, now) => OpPush(id, now)
  }

  /** `cp` is a copy that shows the given agent, or no copy. */
  ghost predicate Shows(cp: Agent?, a: Option<AgentData>)
    reads cp, if cp == null then {} else {cp.labels, cp.lastPushAt}
  {
    if cp == null then a.None? else a == Some(cp.Data())
  }

  method Perform(r: Registry, op: HeapOp) returns (cp: Agent?)
    requires r.Valid()
    modifies r, r.agents.Values
    ensures r.Valid() && fresh(r.agents.Values - old(r.agents.Values))
    ensures cp != null ==> fresh(cp) && cp !in r.agents.Values
    ensures r.View() == Apply(old(r.View()), old(ValueOp(op)))
    ensures Shows(cp, HandsOut(old(r.View()), old(ValueOp(op))))
  {
    match op {
      case HRegister(agentID, hostname, version, org, project, labels, generated, now) =>
        cp := r.Register(agentID, hostname, version, org, project, labels, generated, now);
      case HHeartbeat(id, now) =>
        var ok;
        cp, ok := r.Heartbeat(id, now);
      case HPush(id, now) =>
        r.MarkPush(id, now);
        cp := null;
    }
  }

  /** An operation leaves every copy, and the label maps of the operations to come, as they were. */
  method PerformNext(r: Registry, op: HeapOp, copies: set<Agent>, later: seq<HeapOp>) returns (cp: Agent?)
    requires r.Valid() && copies !! r.agents.Values
    modifies r, r.agents.Values
    ensures r.Valid() && fresh(r.agents.Values - old(r.agents.Values))
    ensures copies !! r.agents.Values
    ensures cp != null ==> fresh(cp) && cp !in r.agents.Values
    ensures Shows(cp, HandsOut(old(r.View()), old(ValueOp(op))))
    ensures forall c :: c in copies ==> c.Data() == old(c.Data())
    ensures forall i :: 0 <= i < |later| ==> ValueOp(later[i]) == old(ValueOp(later[i]))
    ensures r.View() == Apply(old(r.View()), old(ValueOp(op)))
  {
    hide Apply, ValueOp, RequestOf, LabelsOf, Agent.Data, Registry.View, Registry.Shared, Registry.Valid, HandsOut,
         Shows;
    cp := Perform(r, op);
  }

  /** The copies in a list show the given agents. */
  ghost predicate AllShow(copies: seq<Agent>, shown: seq<AgentData>)
    reads copies, set c | c in copies :: c.labels, set c | c in copies :: c.lastPushAt
  {
    |copies| == |shown| && forall i :: 0 <= i < |copies| ==> copies[i].Data() == shown[i]
  }

  /** One more operation of a run: its copy joins those handed out before, which keep showing what they showed. */
  method HandOut(r: Registry, op: HeapOp, copies: set<Agent>, later: seq<HeapOp>,
      handed: seq<Agent>, ghost shown: seq<AgentData>)
      returns (more: seq<Agent>)
    requires r.Valid() && copies !! r.agents.Values && AllShow(handed, shown)
    requires forall c :: c in handed ==> c !in r.agents.Values
    modifies r, r.agents.Values
    ensures r.Valid() && fresh(r.agents.Values - old(r.agents.Values))
    ensures copies !! r.agents.Values && forall c :: c in more ==> (c in handed || fresh(c)) && c !in r.agents.Values
    ensures var last := HandsOut(old(r.View()), old(ValueOp(op)));
            AllShow(more, if last.Some? then shown + [last.value] else shown)
    ensures forall c :: c in copies ==> c.Data() == old(c.Data())
    ensures forall i :: 0 <= i < |later| ==> ValueOp(later[i]) == old(ValueOp(later[i]))
    ensures r.View() == Apply(old(r.View()), old(ValueOp(op)))
  {
    hide Apply, ValueOp, RequestOf, LabelsOf, Agent.Data, Registry.View, Registry.Shared, Registry.Valid, HandsOut;
    var cp := PerformNext(r, op, copies + (set c | c in handed), later);
    more := if cp == null then handed else handed + [cp];
  }

  /**
   * Any sequence of operations on a registry follows the value specification. At the end every copy
   * handed out before the run still shows what it showed, and every copy handed out along the run shows
   * what it showed when it was handed out, although copies share labels and push times with the stored
   * agents.
   */
  method PerformAll(r: Registry, ops: seq<HeapOp>, copies: set<Agent>) returns (handed: seq<Agent>)
    requires r.Valid() && copies !! r.agents.Values
    modifies r, r.agents.Values
    ensures r.Valid()
    ensures copies !! r.agents.Values && forall c :: c in handed ==> fresh(c) && c !in r.agents.Values
    ensures forall c :: c in copies ==> c.Data() == old(c.Data())
    ensures var values := old(seq(|ops|, i requires 0 <= i < |ops| reads * => ValueOp(ops[i])));
            r.View() == Run(old(r.View()), values) && AllShow(handed, Handed(old(r.View()), values))
  {
    hide Run, Apply, ValueOp, RequestOf, LabelsOf, Agent.Data, Registry.View, Registry.Shared, Registry.Valid,
         Handed, HandsOut, AllShow;
    ghost var values := seq(|ops|, i requires 0 <= i < |ops| reads * => ValueOp(ops[i]));
    ghost var start := r.View();
    handed := [];
    RunNone(start, values);
    NoneShow();
    for i := 0 to |ops|
      invariant r.Valid() && fresh(r.agents.Values - old(r.agents.Values))
      invariant copies !! r.agents.Values && forall c :: c in handed ==> fresh(c) && c !in r.agents.Values
      invariant forall c :: c in copies ==> c.Data() == old(c.Data())
      invariant forall j :: 0 <= j < |ops| ==> ValueOp(ops[j]) == values[j]
      invariant r.View() == Run(start, values[..i])
      invariant AllShow(handed, Handed(start, values[..i]))
    {
      RunNext(start, values, i);
      handed := HandOut(r, ops[i], copies, ops, handed, Handed(start, values[..i]));
    }
    assert values[..|ops|] == values;
  }

  lemma NoneShow()
    ensures AllShow([], [])
  {
  }

  lemma RunNone(s: State, ops: seq<Op>)
    ensures Run(s, ops[..0]) == s && Handed(s, ops[..0]) == []
  {
  }

  lemma RunNext(s: State, ops: seq<Op>, i: nat)
    requires i < |ops|
    ensures Run(s, ops[..i + 1]) == Apply(Run(s, ops[..i]), ops[i])
    ensures var last := HandsOut(Run(s, ops[..i]), ops[i]);
            Handed(s, ops[..i + 1]) == if last.Some? then Handed(s, ops[..i]) + [last.value] else Handed(s, ops[..i])
  {
    hide Apply, HandsOut;
    assert ops[..i + 1][..i] == ops[..i];
  }
}

/** The agent registry as a value: what every operation does, and what every run keeps. */
module AgentSpec {
  import opened Prelude
  import opened Strings

  datatype AgentData = AgentData(
    id: string, hostname: string, version: string, org: string, project: string, labels: Option<map<string, string>>,
    status: string, registeredAt: int, lastSeenAt: int, lastPushAt: Option<int>, pushCount: int)

  type State = map<string, AgentData>

  datatype Request = Request(
    agentID: string, hostname: string, version: string, org: string, project: string,
    labels: Option<map<string, string>>)

  function StatusAt(lastSeenAt: int, staleAfter: int, now: int): string {
    if now - lastSeenAt > staleAfter then "stale" else "online"
  }

  /** An agent as a read at `now` shows it. */
  function Shown(a: AgentData, staleAfter: int, now: int): AgentData {
    a.(status := StatusAt(a.lastSeenAt, staleAfter, now))
  }

  function OrDefault(s: string, d: string): string { if s == "" then d else s }

  /** The id a registration uses: the trimmed one, or a generated one when that is empty. */
  function IdFor(agentID: string, generated: string): string {
    OrDefault(TrimSpace(agentID), generated)
  }

  /** Refreshes a known agent, keeping its history, or adds a new one. */
  function Enrol(s: State, id: string, host: string, version: string, org: string, project: string,
                 labels: Option<map<string, string>>, now: int): State {
    if id in s then
      s[id := s[id].(hostname := host, version := version, org := org, project := project, labels := labels,
                     lastSeenAt := now, status := "online")]
    else
      s[id := AgentData(id, host, version, org, project, labels, "online", now, now, None, 0)]
  }

  function Register(s: State, req: Request, generated: string, now: int): State {
    Enrol(s, IdFor(req.agentID, generated), OrDefault(req.hostname, "unknown"), req.version,
          OrDefault(req.org, "default-org"), OrDefault(req.project, "default-project"), req.labels, now)
  }

  function Heartbeat(s: State, id: string, now: int): State {
    if id in s then s[id := s[id].(lastSeenAt := now, status := "online")] else s
  }

  /** `PushCount` is a `uint64`. */
  function MarkPush(s: State, id: string, now: int): State {
    if id in s then
      s[id := s[id].(lastSeenAt := now, lastPushAt := Some(now), pushCount := (s[id].pushCount + 1) % TWO64,
                     status := "online")]
    else s
  }

  // ----- Runs -----

  datatype Op =
    | OpRegister(req: Request, generated: string, now: int)
    | OpHeartbeat(id: string, now: int)
    | OpPush(id: string, now: int)

  function Apply(s: State, op: Op): State {
    match op
    case OpRegister(req, generated, now) => Register(s, req, generated, now)
    case OpHeartbeat(id, now) => Heartbeat(s, id, now)
    case OpPush(id, now) => MarkPush(s, id, now)
  }

  /** The agent an operation hands a copy of to its caller. */
  function HandsOut(s: State, op: Op): Option<AgentData> {
    match op
    case OpRegister(req, generated, now) => Some(Register(s, req, generated, now)[IdFor(req.agentID, generated)])
    case OpHeartbeat(id, now) => if id in s then Some(Heartbeat(s, id, now)[id]) else None
    case OpPush(_, _) => None
  }

  function Run(s: State, ops: seq<Op>): State {
    if ops == [] then s else Apply(Run(s, ops[..|ops| - 1]), ops[|ops| - 1])
  }

  /** What the copies handed out along a run show when they are handed out. */
  function Handed(s: State, ops: seq<Op>): seq<AgentData> {
    if ops == [] then []
    else
      var n := |ops| - 1;
      var before, last := Handed(s, ops[..n]), HandsOut(Run(s, ops[..n]), ops[n]);
      if last.Some? then before + [last.value] else before
  }

  ghost predicate Monotone(ops: seq<Op>) {
    forall i, j :: 0 <= i < j < |ops| ==> ops[i].now <= ops[j].now
  }

  /** The clock of a run: the time of its last operation. */
  ghost predicate NoLaterThan(ops: seq<Op>, now: int) {
    forall i :: 0 <= i < |ops| ==> ops[i].now <= now
  }

  /** How many pushes of `id` the run marked, that is, while `id` was registered. */
  ghost function Pushes(ops: seq<Op>, id: string): nat {
    if ops == [] then 0
    else
      var before, op := ops[..|ops| - 1], ops[|ops| - 1];
      Pushes(before, id) + if op.OpPush? && op.id == id && id in Run(map[], before) then 1 else 0
  }

  /** What holds of every agent after a run that ends no later than `now`. */
  ghost predicate AgentOk(ops: seq<Op>, now: int, id: string, a: AgentData) {
    && a.id == id
    && a.status == "online"
    && a.registeredAt <= a.lastSeenAt <= now
    && (a.lastPushAt.Some? ==> a.registeredAt <= a.lastPushAt.value <= a.lastSeenAt)
    && (a.lastPushAt.Some? <==> Pushes(ops, id) > 0)
    && a.pushCount == Pushes(ops, id) % TWO64
    && a.hostname != "" && a.org != "" && a.project != ""
  }

  /**
   * In every run with a monotone clock: map keys are agent ids; registration precedes the last push,
   * which precedes the last sighting; the push time is set exactly when a push was marked; and the
   * push counter is the number of marked pushes modulo 2^64.
   */
  lemma {:induction false} RunInvariant(ops: seq<Op>, now: int)
    requires Monotone(ops) && NoLaterThan(ops, now)
    ensures forall id :: id in Run(map[], ops) ==> AgentOk(ops, now, id, Run(map[], ops)[id])
    ensures forall id :: id !in Run(map[], ops) ==> Pushes(ops, id) == 0
  {
    if ops != [] {
      var before, op := ops[..|ops| - 1], ops[|ops| - 1];
      RunInvariant(before, op.now);
      assert ops == before + [op];
      hide AgentOk, Run, Pushes;
      var t := Run(map[], ops);
      forall id ensures id in t ==> AgentOk(ops, now, id, t[id])
                ensures id !in t ==> Pushes(ops, id) == 0
      {
        StepInvariant(before, op, now, id);
      }
    }
  }

  lemma StepInvariant(before: seq<Op>, op: Op, now: int, id: string)
    requires op.now <= now
    requires id in Run(map[], before) ==> AgentOk(before, op.now, id, Run(map[], before)[id])
    requires id !in Run(map[], before) ==> Pushes(before, id) == 0
    ensures var t := Run(map[], before + [op]);
            && (id in t ==> AgentOk(before + [op], now, id, t[id]))
            && (id !in t ==> Pushes(before + [op], id) == 0)
  {
    RunSnoc(before, op, id);
    var s, n := Run(map[], before), Pushes(before, id);
    var n' := Pushes(before + [op], id);
    hide TrimSpace, Run, Pushes;
    match op {
      case OpRegister(req, generated, t) =>
      case OpHeartbeat(i, t) =>
      case OpPush(i, t) =>
        if i == id && id in s {
          CountOneMore(n);
        }
    }
  }

  lemma CountOneMore(n: nat)
    ensures (n % TWO64 + 1) % TWO64 == (n + 1) % TWO64
  {
  }

  lemma RunSnoc(before: seq<Op>, op: Op, id: string)
    ensures Run(map[], before + [op]) == Apply(Run(map[], before), op)
    ensures Pushes(before + [op], id)
         == Pushes(before, id) + if op.OpPush? && op.id == id && id in Run(map[], before) then 1 else 0
  {
    var ops := before + [op];
    assert ops[..|ops| - 1] == before;
  }

  /** Agents never vanish, and the time of registration and the id never change. */
  lemma {:induction false} AgentsPersist(s: State, ops: seq<Op>, id: string)
    requires id in s
    ensures id in Run(s, ops) && Keeps(s[id], Run(s, ops)[id])
  {
    hide Apply;
    if ops != [] {
      var n := |ops| - 1;
      AgentsPersist(s, ops[..n], id);
      StepKeeps(Run(s, ops[..n]), ops[n], id);
    }
  }

  /** The same agent, no less pushed. */
  ghost predicate Keeps(a: AgentData, b: AgentData) {
    b.registeredAt == a.registeredAt && b.id == a.id && (a.lastPushAt.Some? ==> b.lastPushAt.Some?)
  }

  lemma StepKeeps(s: State, op: Op, id: string)
    requires id in s
    ensures id in Apply(s, op) && Keeps(s[id], Apply(s, op)[id])
  {
    hide IdFor, OrDefault;
  }
}

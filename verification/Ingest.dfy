/** Accepting a push: event counting, the writer's counters and the registry's push marks. */
module Ingest {
  import opened Prelude
  import opened Strings
  import opened Arith
  import opened Sums
  import opened AgentSpec
  import R = Registry

  /** Go's conversion of an `int` to `uint64`. */
  function ToUint64(n: int): (u: int)
    ensures 0 <= u < TWO64
    ensures 0 <= n < TWO64 ==> u == n
  {
    n % TWO64
  }

  class Writer {
    var batches: int
    var ingestBytes: int
    var ingestEvents: int
    var lastErr: string

    constructor ()
      ensures batches == ingestBytes == ingestEvents == 0 && lastErr == ""
    {
      batches, ingestBytes, ingestEvents, lastErr := 0, 0, 0, "";
    }

    method RecordIngest(table: string, eventCount: int, payloadBytes: int)
      modifies this
      ensures batches == (old(batches) + 1) % TWO64
      ensures ingestEvents == (old(ingestEvents) + ToUint64(eventCount)) % TWO64
      ensures ingestBytes == (old(ingestBytes) + ToUint64(payloadBytes)) % TWO64
      ensures lastErr == old(lastErr)
    {
      batches := (batches + 1) % TWO64;
      ingestEvents := (ingestEvents + ToUint64(eventCount)) % TWO64;
      ingestBytes := (ingestBytes + ToUint64(payloadBytes)) % TWO64;
    }

    method SetLastError(err: Option<string>)
      modifies this`lastErr
      ensures lastErr == if err.Some? then err.value else ""
    {
      if err.None? {
        lastErr := "";
        return;
      }
      lastErr := err.value;
    }
  }

  /** The `events` field of a push: absent, a JSON array (or null) of a known length, or something else. */
  datatype Events = NoEvents | Array(n: nat) | OtherJSON

  datatype Body = TooLarge | BadJSON | Envelope(agentID: string, kind: string, eventCount: int, events: Events)

  datatype Push = Push(post: bool, enrollHeader: string, authorization: string, body: Body, size: nat, now: int)

  datatype Reply = MethodNotAllowed | Unauthorized | PayloadTooLarge | BadRequest
    | Accepted(agentID: string, kind: string, eventCount: int, table: string)

  predicate EnrollOK(token: string, authRequired: bool, p: Push) {
    if token == "" then !authRequired
    else
      var tok :=
        if p.enrollHeader != "" then p.enrollHeader
        else if |p.authorization| >= 7 && ToLower(p.authorization[..7]) == "bearer "
          then TrimSpace(p.authorization[7..])
        else "";
      tok == token
  }

  /** The credentials carry the token as a bearer value, the scheme in any case and the value in any padding. */
  predicate BearerIs(authorization: string, token: string) {
    && |authorization| >= 7 && ToLower(authorization[..7]) == "bearer "
    && TrimSpace(authorization[7..]) == token
  }

  /**
   * Who may push: without a configured token, everyone exactly when auth is not required; with one, exactly
   * who sends it in the enrolment header or, when that header is empty, as a bearer value.
   */
  lemma EnrollExactly(token: string, authRequired: bool, p: Push)
    ensures token == "" ==> (EnrollOK(token, authRequired, p) <==> !authRequired)
    ensures token != "" ==>
      (EnrollOK(token, authRequired, p) <==>
         p.enrollHeader == token || (p.enrollHeader == "" && BearerIs(p.authorization, token)))
  {
    hide ToLower, TrimSpace;
  }

  /** The declared count when it is positive, else the number of events sent. */
  function EventsIn(b: Body): int
    requires b.Envelope?
  {
    if b.eventCount > 0 || b.events.NoEvents? then b.eventCount
    else if b.events.Array? then b.events.n
    else 1
  }

  function TableForKind(kind: string): string {
    match ToLower(TrimSpace(kind))
    case "spans" => "spans"
    case "traces" => "spans"
    case "metrics" => "metrics"
    case "logs" => "logs"
    case "profiles" => "profiles"
    case _ => "telemetry_raw"
  }

  /** Four kinds name their own table in any case and padding, traces go with the spans, and all others are kept raw. */
  lemma TablesByKind(kind: string)
    ensures var k := ToLower(TrimSpace(kind));
            && (k in {"spans", "metrics", "logs", "profiles"} ==> TableForKind(kind) == k)
            && (k == "traces" ==> TableForKind(kind) == TableForKind("spans"))
            && (k !in {"spans", "traces", "metrics", "logs", "profiles"} ==> TableForKind(kind) == "telemetry_raw")
  {
    var s := "spans";
    assert TrimLeft(s) == s && TrimRight(s) == s && ToLower(s) == s;
  }

  /**
   * The reply to a push: the first check that fails, or the agent, the kind, the table and the event count:
   * the declared one when positive, else the length of the array sent, or one for anything else sent.
   */
  ghost predicate IsReply(r: Reply, token: string, authRequired: bool, p: Push) {
    && (r.MethodNotAllowed? <==> !p.post)
    && (r.Unauthorized? <==> p.post && !EnrollOK(token, authRequired, p))
    && (r.PayloadTooLarge? <==> p.post && EnrollOK(token, authRequired, p) && p.body.TooLarge?)
    && (r.Accepted? <==>
          p.post && EnrollOK(token, authRequired, p) && p.body.Envelope? && TrimSpace(p.body.agentID) != "")
    && (r.Accepted? ==>
          && r.agentID == p.body.agentID
          && r.kind == (if p.body.kind == "" then "mixed" else p.body.kind) && r.table == TableForKind(r.kind)
          && (p.body.eventCount > 0 || p.body.events.NoEvents? ==> r.eventCount == p.body.eventCount)
          && (p.body.eventCount <= 0 && p.body.events.Array? ==> r.eventCount == p.body.events.n)
          && (p.body.eventCount <= 0 && p.body.events.OtherJSON? ==> r.eventCount == 1))
  }

  /** A push that gets as far as the counters. */
  predicate IsAccepted(token: string, authRequired: bool, p: Push) {
    p.post && EnrollOK(token, authRequired, p) && p.body.Envelope? && TrimSpace(p.body.agentID) != ""
  }

  /** The hub as values: its counters and its agents. */
  datatype Hub = Hub(batches: int, events: int, bytes: int, agents: State)

  function Accept(h: Hub, p: Push): Hub
    requires p.body.Envelope?
  {
    Hub((h.batches + 1) % TWO64, (h.events + ToUint64(EventsIn(p.body))) % TWO64, (h.bytes + ToUint64(p.size)) % TWO64,
        MarkPush(h.agents, p.body.agentID, p.now))
  }

  class Handler {
    const reg: R.Registry?
    const writer: Writer?
    const enrollToken: string
    const authRequired: bool

    constructor (reg: R.Registry?, writer: Writer?, enrollToken: string, authRequired: bool)
      ensures this.reg == reg && this.writer == writer
      ensures this.enrollToken == enrollToken && this.authRequired == authRequired
    {
      this.reg, this.writer, this.enrollToken, this.authRequired := reg, writer, enrollToken, authRequired;
    }

    ghost function Agents(): set<object>
      reads this, reg
    {
      if reg == null then {} else reg.agents.Values
    }

    method ServePush(p: Push) returns (r: Reply)
      requires reg != null ==> reg.Valid()
      modifies writer, Agents()
      ensures r.Accepted? <==> IsAccepted(enrollToken, authRequired, p)
      ensures IsReply(r, enrollToken, authRequired, p)
      ensures r.Accepted? ==> r.eventCount == EventsIn(p.body)
      ensures reg != null ==> reg.Valid() && reg.agents == old(reg.agents)
      ensures reg != null ==>
        reg.View() == if r.Accepted? then MarkPush(old(reg.View()), p.body.agentID, p.now) else old(reg.View())
      ensures writer != null && r.Accepted? ==>
        && writer.batches == (old(writer.batches) + 1) % TWO64
        && writer.ingestEvents == (old(writer.ingestEvents) + ToUint64(EventsIn(p.body))) % TWO64
        && writer.ingestBytes == (old(writer.ingestBytes) + ToUint64(p.size)) % TWO64
      ensures writer != null && !r.Accepted? ==> unchanged(writer)
    {
      hide TrimSpace, ToLower, TableForKind, EnrollOK;
      if !p.post {
        return MethodNotAllowed;
      }
      if !EnrollOK(enrollToken, authRequired, p) {
        return Unauthorized;
      }
      if p.body.TooLarge? {
        return PayloadTooLarge;
      }
      if p.body.BadJSON? {
        return BadRequest;
      }
      if TrimSpace(p.body.agentID) == "" {
        return BadRequest;
      }
      var kind := p.body.kind;
      if kind == "" {
        kind := "mixed";
      }
      var n := p.body.eventCount;
      if n <= 0 && !p.body.events.NoEvents? {
        if p.body.events.Array? {
          n := p.body.events.n;
        } else {
          n := 1;
        }
      }
      var table := TableForKind(kind);
      Record(p, table, n);
      r := Reply.Accepted(p.body.agentID, kind, n, table);
    }

    /** The paired updates: the writer's counters, then the registry. */
    method Record(p: Push, table: string, n: int)
      requires reg != null ==> reg.Valid()
      requires p.body.Envelope?
      modifies writer, Agents()
      ensures reg != null ==>
        reg.Valid() && reg.agents == old(reg.agents) && reg.View() == MarkPush(old(reg.View()), p.body.agentID, p.now)
      ensures writer != null ==>
        && writer.batches == (old(writer.batches) + 1) % TWO64
        && writer.ingestEvents == (old(writer.ingestEvents) + ToUint64(n)) % TWO64
        && writer.ingestBytes == (old(writer.ingestBytes) + ToUint64(p.size)) % TWO64
    {
      if writer != null {
        writer.RecordIngest(table, n, p.size);
      }
      if reg != null {
        label before:
        assert reg.View() == old(reg.View()) && reg.Valid();
        reg.MarkPush(p.body.agentID, p.now);
      }
    }
  }

  // ----- Whole runs -----

  datatype Event = Agent(op: Op) | Pushed(p: Push)

  /** What one event does: registrations and heartbeats touch the agents, accepted pushes both sides. */
  function Step(token: string, authRequired: bool, h: Hub, e: Event): Hub {
    match e
    case Agent(op) => if op.OpPush? then h else h.(agents := Apply(h.agents, op))
    case Pushed(p) => if IsAccepted(token, authRequired, p) then Accept(h, p) else h
  }

  function RunHub(token: string, authRequired: bool, es: seq<Event>): Hub {
    if es == [] then Hub(0, 0, 0, map[])
    else Step(token, authRequired, RunHub(token, authRequired, es[..|es| - 1]), es[|es| - 1])
  }

  /** What counts about an accepted push. */
  datatype Sent = Sent(id: string, events: int, bytes: nat)

  function SentBy(p: Push): Sent
    requires p.body.Envelope?
  {
    Sent(p.body.agentID, EventsIn(p.body), p.size)
  }

  /** The pushes that were accepted, in order. */
  ghost function AcceptedPushes(token: string, authRequired: bool, es: seq<Event>): seq<Sent> {
    if es == [] then []
    else
      var before, e := es[..|es| - 1], es[|es| - 1];
      AcceptedPushes(token, authRequired, before)
      + if e.Pushed? && IsAccepted(token, authRequired, e.p) then [SentBy(e.p)] else []
  }

  /** The accepted pushes whose agent was registered, under exactly that id, at that moment. */
  ghost function KnownPushes(token: string, authRequired: bool, es: seq<Event>): seq<Sent> {
    if es == [] then []
    else
      var before, e := es[..|es| - 1], es[|es| - 1];
      KnownPushes(token, authRequired, before)
      + if && e.Pushed? && IsAccepted(token, authRequired, e.p)
           && e.p.body.agentID in RunHub(token, authRequired, before).agents
        then [SentBy(e.p)] else []
  }

  ghost function EventTotal(ps: seq<Sent>): int {
    if ps == [] then 0 else EventTotal(ps[..|ps| - 1]) + ps[|ps| - 1].events
  }

  ghost function ByteTotal(ps: seq<Sent>): int {
    if ps == [] then 0 else ByteTotal(ps[..|ps| - 1]) + ps[|ps| - 1].bytes
  }

  ghost function PushesOf(ps: seq<Sent>, id: string): nat {
    if ps == [] then 0 else PushesOf(ps[..|ps| - 1], id) + if ps[|ps| - 1].id == id then 1 else 0
  }

  lemma AddMod(a: int, b: int, m: int)
    requires m > 0
    ensures (a % m + b) % m == (a + b) % m
  {
    var q, r := a / m, a % m;
    var k, rest := (r + b) / m, (r + b) % m;
    assert a + b == (q + k) * m + rest;
    DivUnique(a + b, m, q + k, rest);
  }

  lemma PushTotals(ps: seq<Sent>, p: Sent)
    ensures EventTotal(ps + [p]) == EventTotal(ps) + p.events && ByteTotal(ps + [p]) == ByteTotal(ps) + p.bytes
    ensures forall id :: PushesOf(ps + [p], id) == PushesOf(ps, id) + if p.id == id then 1 else 0
  {
    assert (ps + [p])[..|ps|] == ps;
  }

  /** The counters of the hub agree with the pushes it accepted. */
  ghost predicate Agree(h: Hub, accepted: seq<Sent>, known: seq<Sent>)
  {
    && h.batches == |accepted| % TWO64
    && h.events == EventTotal(accepted) % TWO64
    && h.bytes == ByteTotal(accepted) % TWO64
    && (forall id :: id in h.agents ==> h.agents[id].pushCount == PushesOf(known, id) % TWO64)
    && (forall p :: p in known ==> p.id in h.agents)
  }

  /**
   * Over every run of registrations, heartbeats and pushes, the counters in the two components
   * agree: `batches` is the number of accepted pushes, `ingest_events` the sum of their event counts,
   * `ingest_bytes` the sum of their sizes, and every agent's push counter the number of accepted pushes
   * sent under its exact id while it was registered, all modulo 2^64.
   */
  lemma {:induction false} CountersAgree(token: string, authRequired: bool, es: seq<Event>)
    ensures Agree(RunHub(token, authRequired, es), AcceptedPushes(token, authRequired, es),
                  KnownPushes(token, authRequired, es))
  {
    if es != [] {
      var before, e := es[..|es| - 1], es[|es| - 1];
      CountersAgree(token, authRequired, before);
      var h, accepted, known :=
        RunHub(token, authRequired, before), AcceptedPushes(token, authRequired, before),
        KnownPushes(token, authRequired, before);
      if e.Pushed? && IsAccepted(token, authRequired, e.p) {
        PushAgrees(h, accepted, known, e.p);
        assert known + [] == known;
      } else {
        assert accepted + [] == accepted && known + [] == known;
        if e.Agent? && !e.op.OpPush? { AgentAgrees(h, accepted, known, e.op); }
      }
    }
  }

  lemma {:induction false} NonePushed(ps: seq<Sent>, id: string)
    requires forall p :: p in ps ==> p.id != id
    ensures PushesOf(ps, id) == 0
  {
    if ps != [] {
      assert ps[|ps| - 1] in ps;
      NonePushed(ps[..|ps| - 1], id);
    }
  }

  lemma AgentAgrees(h: Hub, accepted: seq<Sent>, known: seq<Sent>, op: Op)
    requires Agree(h, accepted, known) && !op.OpPush?
    ensures Agree(h.(agents := Apply(h.agents, op)), accepted, known)
  {
    hide TrimSpace, EventTotal, ByteTotal, PushesOf;
    if op.OpRegister? {
      var id := IdFor(op.req.agentID, op.generated);
      if id !in h.agents { NonePushed(known, id); }
    }
  }

  lemma PushAgrees(h: Hub, accepted: seq<Sent>, known: seq<Sent>, p: Push)
    requires p.body.Envelope?
    requires Agree(h, accepted, known)
    ensures Agree(Accept(h, p), accepted + [SentBy(p)],
                  if p.body.agentID in h.agents then known + [SentBy(p)] else known)
  {
    PushTotals(accepted, SentBy(p));
    hide EventTotal, ByteTotal, PushesOf, EventsIn, ToUint64, MarkPush;
    CountOneMore(|accepted|);
    NextTotal(EventTotal(accepted), EventsIn(p.body));
    NextTotal(ByteTotal(accepted), p.size);
    PushAgents(h.agents, known, p);
  }

  lemma PushAgents(agents: State, known: seq<Sent>, p: Push)
    requires p.body.Envelope?
    requires forall id :: id in agents ==> agents[id].pushCount == PushesOf(known, id) % TWO64
    requires forall x :: x in known ==> x.id in agents
    ensures var agents' := MarkPush(agents, p.body.agentID, p.now);
            var known' := if p.body.agentID in agents then known + [SentBy(p)] else known;
            && (forall id :: id in agents' ==> agents'[id].pushCount == PushesOf(known', id) % TWO64)
            && (forall x :: x in known' ==> x.id in agents')
  {
    PushTotals(known, SentBy(p));
    CountOneMore(PushesOf(known, p.body.agentID));
    hide PushesOf;
  }

  lemma NextTotal(total: int, n: int)
    ensures (total % TWO64 + ToUint64(n)) % TWO64 == (total + n) % TWO64
  {
    AddMod(total, ToUint64(n), TWO64);
    ModOfSum(total, n);
  }

  lemma ModOfSum(a: int, b: int)
    ensures (a + b % TWO64) % TWO64 == (a + b) % TWO64
  {
    AddMod(b, a, TWO64);
  }

  // ----- Runs in the heap -----

  /** An event as it reaches the hub, with a registration's label map in the heap. */
  datatype HeapEvent = HeapAgent(op: R.HeapOp) | HeapPush(p: Push)

  ghost function ValueEvent(e: HeapEvent): Event
    reads if e.HeapAgent? && e.op.HRegister? then {e.op.labels} else {}
  {
    match e
    case HeapAgent(op) => Agent(R.ValueOp(op))
    case HeapPush(p) => Pushed(p)
  }

  /** The hub's counters and agents, as values. */
  ghost function HubOf(writer: Writer, reg: R.Registry): Hub
    reads writer, reg, reg.agents.Values, reg.Shared()
  {
    Hub(writer.batches, writer.ingestEvents, writer.ingestBytes, reg.View())
  }

  /** A push served by the hub is one step of the value model. */
  method ServePushed(h: Handler, writer: Writer, reg: R.Registry, p: Push)
    requires h.writer == writer && h.reg == reg && reg.Valid()
    modifies writer, reg.agents.Values
    ensures reg.Valid() && reg.agents == old(reg.agents)
    ensures HubOf(writer, reg) == Step(h.enrollToken, h.authRequired, old(HubOf(writer, reg)), Pushed(p))
  {
    hide IsAccepted, IsReply, EventsIn, ToUint64, MarkPush, Apply, R.Registry.View, R.Registry.Shared, R.Registry.Valid;
    var _ := h.ServePush(p);
  }

  /** One event served by the hub is one step of the value model. */
  method Serve(h: Handler, writer: Writer, reg: R.Registry, e: HeapEvent, later: seq<HeapEvent>)
    requires h.writer == writer && h.reg == reg && reg.Valid()
    requires e.HeapAgent? ==> !e.op.HPush?
    modifies writer, reg, reg.agents.Values
    ensures reg.Valid() && fresh(reg.agents.Values - old(reg.agents.Values))
    ensures HubOf(writer, reg) == Step(h.enrollToken, h.authRequired, old(HubOf(writer, reg)), old(ValueEvent(e)))
    ensures forall i :: 0 <= i < |later| ==> ValueEvent(later[i]) == old(ValueEvent(later[i]))
  {
    hide IsAccepted, EventsIn, ToUint64, MarkPush, Apply, R.Registry.View, R.Registry.Shared, R.Registry.Valid;
    match e {
      case HeapAgent(op) =>
        var _ := R.Perform(reg, op);
      case HeapPush(p) =>
        ServePushed(h, writer, reg, p);
    }
  }

  /**
   * A new hub that serves any sequence of registrations, heartbeats and pushes ends with the counters and
   * the agents of the value model's run, to which the results above and below apply.
   */
  method ServeAll(h: Handler, writer: Writer, reg: R.Registry, es: seq<HeapEvent>)
    requires h.writer == writer && h.reg == reg && reg.Valid()
    requires HubOf(writer, reg) == Hub(0, 0, 0, map[])
    requires forall i :: 0 <= i < |es| && es[i].HeapAgent? ==> !es[i].op.HPush?
    modifies writer, reg, reg.agents.Values
    ensures reg.Valid()
    ensures HubOf(writer, reg) == RunHub(h.enrollToken, h.authRequired,
              old(seq(|es|, i requires 0 <= i < |es| reads * => ValueEvent(es[i]))))
  {
    hide HubOf, Step, ValueEvent, RunHub, R.Registry.View, R.Registry.Shared, R.Registry.Valid;
    ghost var values := seq(|es|, i requires 0 <= i < |es| reads * => ValueEvent(es[i]));
    NothingServed(h.enrollToken, h.authRequired, values);
    for i := 0 to |es|
      invariant reg.Valid() && fresh(reg.agents.Values - old(reg.agents.Values))
      invariant forall j :: 0 <= j < |es| ==> ValueEvent(es[j]) == values[j]
      invariant HubOf(writer, reg) == RunHub(h.enrollToken, h.authRequired, values[..i])
    {
      ServedNext(h.enrollToken, h.authRequired, values, i);
      Serve(h, writer, reg, es[i], es);
    }
    assert values[..|es|] == values;
  }

  lemma NothingServed(token: string, authRequired: bool, es: seq<Event>)
    ensures RunHub(token, authRequired, es[..0]) == Hub(0, 0, 0, map[])
  {
  }

  lemma ServedNext(token: string, authRequired: bool, es: seq<Event>, i: nat)
    requires i < |es|
    ensures RunHub(token, authRequired, es[..i + 1])
         == Step(token, authRequired, RunHub(token, authRequired, es[..i]), es[i])
  {
    hide Step;
    assert es[..i + 1][..i] == es[..i];
  }

  // ----- The push counters added up -----

  ghost function CountSum(agents: State, ids: seq<string>): int
    requires forall id :: id in ids ==> id in agents
  {
    if ids == [] then 0
    else
      assert ids[0] in ids && forall id :: id in ids[1..] ==> id in ids;
      agents[ids[0]].pushCount + CountSum(agents, ids[1..])
  }

  ghost function KnownSum(known: seq<Sent>, ids: seq<string>): int
  {
    if ids == [] then 0 else PushesOf(known, ids[0]) + KnownSum(known, ids[1..])
  }

  lemma {:induction false} CountSumMod(agents: State, ids: seq<string>, known: seq<Sent>)
    requires forall id :: id in ids ==> id in agents && agents[id].pushCount == PushesOf(known, id) % TWO64
    ensures CountSum(agents, ids) % TWO64 == KnownSum(known, ids) % TWO64
  {
    if ids != [] {
      assert ids[0] in ids && forall id :: id in ids[1..] ==> id in ids;
      CountSumMod(agents, ids[1..], known);
      var a, b, c := PushesOf(known, ids[0]), CountSum(agents, ids[1..]), KnownSum(known, ids[1..]);
      AddMod(a, b, TWO64);
      AddMod(b, a, TWO64);
      AddMod(c, a, TWO64);
    }
  }

  lemma {:induction false} KnownSumSnoc(known: seq<Sent>, p: Sent, ids: seq<string>)
    requires Distinct(ids)
    ensures KnownSum(known + [p], ids) == KnownSum(known, ids) + if p.id in ids then 1 else 0
  {
    if ids != [] {
      KnownSumSnoc(known, p, ids[1..]);
      PushTotals(known, p);
      assert ids == [ids[0]] + ids[1..];
    }
  }

  lemma {:induction false} KnownSumIsLength(known: seq<Sent>, ids: seq<string>)
    requires forall p :: p in known ==> p.id in ids
    requires Distinct(ids)
    ensures KnownSum(known, ids) == |known|
  {
    if known == [] {
      KnownSumEmpty(ids);
    } else {
      var before, p := known[..|known| - 1], known[|known| - 1];
      assert p in known && forall x :: x in before ==> x in known;
      KnownSumIsLength(before, ids);
      KnownSumSnoc(before, p, ids);
      assert known == before + [p];
    }
  }

  lemma {:induction false} KnownSumEmpty(ids: seq<string>)
    ensures KnownSum([], ids) == 0
  {
    if ids != [] { KnownSumEmpty(ids[1..]); }
  }

  /**
   * Added up over all agents, the push counters give the number of accepted pushes whose exact id was
   * registered at that moment, modulo 2^64.
   */
  lemma PushCountsAddUp(token: string, authRequired: bool, es: seq<Event>, ids: seq<string>)
    requires Distinct(ids) && forall id :: id in ids <==> id in RunHub(token, authRequired, es).agents
    ensures CountSum(RunHub(token, authRequired, es).agents, ids) % TWO64
         == |KnownPushes(token, authRequired, es)| % TWO64
  {
    CountersAgree(token, authRequired, es);
    var known := KnownPushes(token, authRequired, es);
    CountSumMod(RunHub(token, authRequired, es).agents, ids, known);
    KnownSumIsLength(known, ids);
  }

  // ----- Which pushes can be marked -----

  predicate Trimmed(s: string) { TrimSpace(s) == s }

  /** Generated agent ids carry no white space at their ends. */
  ghost predicate GeneratedTrimmed(es: seq<Event>) {
    forall e :: e in es && e.Agent? && e.op.OpRegister? ==> Trimmed(e.op.generated)
  }

  lemma HubSnoc(token: string, authRequired: bool, es: seq<Event>, e: Event)
    ensures RunHub(token, authRequired, es + [e]) == Step(token, authRequired, RunHub(token, authRequired, es), e)
  {
    assert (es + [e])[..|es|] == es;
  }

  lemma KnownSnoc(token: string, authRequired: bool, es: seq<Event>, p: Push)
    requires IsAccepted(token, authRequired, p)
    ensures KnownPushes(token, authRequired, es + [Pushed(p)])
         == KnownPushes(token, authRequired, es)
          + if p.body.agentID in RunHub(token, authRequired, es).agents then [SentBy(p)] else []
  {
    assert (es + [Pushed(p)])[..|es|] == es;
  }

  /** A step enrols an agent only under a trimmed id. */
  lemma StepKeepsTrimmed(token: string, authRequired: bool, h: Hub, e: Event, id: string)
    requires e.Agent? && e.op.OpRegister? ==> Trimmed(e.op.generated)
    requires id in Step(token, authRequired, h, e).agents
    ensures id in h.agents || Trimmed(id)
  {
    if e.Agent? && e.op.OpRegister? { TrimIdempotent(e.op.req.agentID); }
    hide TrimSpace, IsAccepted, EventsIn, ToUint64;
  }

  /** In every run the registered ids are trimmed, and so are the ids of the pushes that were marked. */
  lemma {:induction false} RegisteredIdsAreTrimmed(token: string, authRequired: bool, es: seq<Event>)
    requires GeneratedTrimmed(es)
    ensures forall id :: id in RunHub(token, authRequired, es).agents ==> Trimmed(id)
    ensures forall p :: p in KnownPushes(token, authRequired, es) ==> Trimmed(p.id)
  {
    hide TrimSpace, Step, Trimmed, IsAccepted, EventsIn;
    if es != [] {
      var before, e := es[..|es| - 1], es[|es| - 1];
      assert e in es && forall x :: x in before ==> x in es;
      RegisteredIdsAreTrimmed(token, authRequired, before);
      var h := RunHub(token, authRequired, before);
      forall id | id in Step(token, authRequired, h, e).agents ensures Trimmed(id) {
        StepKeepsTrimmed(token, authRequired, h, e, id);
      }
    }
  }

  /**
   * A registration trims the id it is given but a push does not. So after every run, for every token and
   * auth setting, an accepted push with a padded id is counted as a batch and marks no agent at all.
   */
  lemma PaddedIdIsNeverMarked(token: string, authRequired: bool, es: seq<Event>, p: Push)
    requires GeneratedTrimmed(es) && IsAccepted(token, authRequired, p) && !Trimmed(p.body.agentID)
    ensures var h, after := RunHub(token, authRequired, es), RunHub(token, authRequired, es + [Pushed(p)]);
            after.agents == h.agents && after.batches == (h.batches + 1) % TWO64
    ensures KnownPushes(token, authRequired, es + [Pushed(p)]) == KnownPushes(token, authRequired, es)
  {
    hide Trimmed, KnownPushes, RunHub, EnrollOK, EventsIn, ToUint64;
    RegisteredIdsAreTrimmed(token, authRequired, es);
    HubSnoc(token, authRequired, es, Pushed(p));
    KnownSnoc(token, authRequired, es, p);
  }

  /** After the run `es` the push `p` is marked on an agent. */
  ghost predicate MarkedAfter(token: string, authRequired: bool, es: seq<Event>, p: Push) {
    && GeneratedTrimmed(es)
    && |KnownPushes(token, authRequired, es + [Pushed(p)])| > |KnownPushes(token, authRequired, es)|
  }

  /** An accepted push can be marked, in some run, exactly when its id is trimmed. */
  lemma MarkedExactlyWhenTrimmed(token: string, authRequired: bool, p: Push)
    requires IsAccepted(token, authRequired, p)
    ensures (exists es :: MarkedAfter(token, authRequired, es, p)) <==> Trimmed(p.body.agentID)
  {
    hide KnownPushes, RunHub, EnrollOK, EventsIn, TrimSpace;
    if Trimmed(p.body.agentID) {
      var id := p.body.agentID;
      var es := [Agent(OpRegister(Request(id, "", "", "", "", None), id, 0))];
      HubSnoc(token, authRequired, [], es[0]);
      assert [] + es == es;
      KnownSnoc(token, authRequired, es, p);
      assert MarkedAfter(token, authRequired, es, p);
    }
    if es :| MarkedAfter(token, authRequired, es, p) {
      if !Trimmed(p.body.agentID) { PaddedIdIsNeverMarked(token, authRequired, es, p); }
    }
  }

  /**
   * For example, an agent that pads its id is registered, its push counts as a batch, and its own count stays
   * at zero.
   */
  lemma PaddedIdWitness(p: Push, req: Request, generated: string)
    requires p.post && p.body.Envelope? && TrimSpace(p.body.agentID) != p.body.agentID
    requires TrimSpace(p.body.agentID) != "" && req.agentID == p.body.agentID
    ensures var es := [Agent(OpRegister(req, generated, 0)), Pushed(p)];
            var h := RunHub("", false, es);
            h.batches == 1 && TrimSpace(req.agentID) in h.agents && h.agents[TrimSpace(req.agentID)].pushCount == 0
  {
    hide TrimSpace, ToLower;
    var es := [Agent(OpRegister(req, generated, 0)), Pushed(p)];
    assert es[..1] == [Agent(OpRegister(req, generated, 0))];
    assert es[..1][..0] == [];
    assert RunHub("", false, es[..1]).agents.Keys == {TrimSpace(req.agentID)};
  }
}

/** What an agent shows, read off the operations of a run: who registered it, touched it and pushed. */
module AgentHistory {
  import opened Prelude
  import opened Strings
  import opened AgentSpec

  /** The operation registers the agent: under its trimmed id, or under a generated one when that is empty. */
  ghost predicate Enrols(op: Op, id: string) {
    && op.OpRegister?
    && id == if TrimSpace(op.req.agentID) != "" then TrimSpace(op.req.agentID) else op.generated
  }

  ghost predicate Registers(ops: seq<Op>, i: int, id: string) { 0 <= i < |ops| && Enrols(ops[i], id) }

  /** The agent was registered before operation `i`. */
  ghost predicate RegisteredBefore(ops: seq<Op>, i: int, id: string) {
    exists j :: 0 <= j < i && Registers(ops, j, id)
  }

  /** Operation `i` is a push of the agent while it is registered. */
  ghost predicate Marks(ops: seq<Op>, i: int, id: string) {
    0 <= i < |ops| && ops[i].OpPush? && ops[i].id == id && RegisteredBefore(ops, i, id)
  }

  /** Operation `i` is a registration, a heartbeat or a push of the agent, the latter two while it is registered. */
  ghost predicate Touches(ops: seq<Op>, i: int, id: string) {
    || Registers(ops, i, id) || Marks(ops, i, id)
    || (0 <= i < |ops| && ops[i].OpHeartbeat? && ops[i].id == id && RegisteredBefore(ops, i, id))
  }

  /** What the first operations of a run do does not depend on what follows. */
  lemma Earlier(before: seq<Op>, op: Op, id: string)
    ensures forall i :: i < |before| ==> Registers(before + [op], i, id) == Registers(before, i, id)
    ensures forall i :: i <= |before| ==> RegisteredBefore(before + [op], i, id) == RegisteredBefore(before, i, id)
    ensures forall i :: i < |before| ==> Marks(before + [op], i, id) == Marks(before, i, id)
    ensures forall i :: i < |before| ==> Touches(before + [op], i, id) == Touches(before, i, id)
  {
    hide TrimSpace;
    var ops := before + [op];
    forall i | i < |before| ensures Registers(ops, i, id) == Registers(before, i, id) {
      if 0 <= i { assert ops[i] == before[i]; }
    }
    hide Registers;
    forall i | i <= |before| ensures RegisteredBefore(ops, i, id) == RegisteredBefore(before, i, id) { }
    hide RegisteredBefore;
    forall i | i < |before| ensures Marks(ops, i, id) == Marks(before, i, id) {
      if 0 <= i { assert ops[i] == before[i]; }
    }
    forall i | i < |before| ensures Touches(ops, i, id) == Touches(before, i, id) {
      if 0 <= i { assert ops[i] == before[i]; }
    }
  }

  /** The last operation of a run, and that nothing follows it. */
  lemma Latest(before: seq<Op>, op: Op, id: string)
    ensures var ops, n := before + [op], |before|;
            && (Registers(ops, n, id) <==> Enrols(op, id))
            && (Marks(ops, n, id) <==> op.OpPush? && op.id == id && RegisteredBefore(before, n, id))
            && (Touches(ops, n, id) <==>
                  Enrols(op, id) || (!op.OpRegister? && op.id == id && RegisteredBefore(before, n, id)))
    ensures forall i :: i > |before| ==>
      !Registers(before + [op], i, id) && !Marks(before + [op], i, id) && !Touches(before + [op], i, id)
  {
    Earlier(before, op, id);
    hide Enrols, RegisteredBefore;
  }

  lemma RegisteredNext(ops: seq<Op>, i: nat, id: string)
    ensures RegisteredBefore(ops, i + 1, id) <==> RegisteredBefore(ops, i, id) || Registers(ops, i, id)
  {
    hide Registers;
  }

  /** What one operation does to one agent. */
  lemma StepShows(s: State, op: Op, id: string)
    ensures id in Apply(s, op) <==> id in s || Enrols(op, id)
    ensures Enrols(op, id) ==>
      var a := Apply(s, op)[id];
      && ShowsRequest(a, op.req) && a.lastSeenAt == op.now
      && (if id in s then a.registeredAt == s[id].registeredAt && a.lastPushAt == s[id].lastPushAt
          else a.registeredAt == op.now && a.lastPushAt == None)
    ensures id in s && op.OpHeartbeat? && op.id == id ==>
      Apply(s, op)[id] == s[id].(lastSeenAt := op.now, status := "online")
    ensures id in s && op.OpPush? && op.id == id ==>
      var a := Apply(s, op)[id];
      && a.lastSeenAt == op.now && a.lastPushAt == Some(op.now)
      && a == s[id].(lastSeenAt := op.now, lastPushAt := Some(op.now), pushCount := a.pushCount, status := "online")
    ensures id in s && !Enrols(op, id) && (op.OpRegister? || op.id != id) ==> Apply(s, op)[id] == s[id]
  {
    hide TrimSpace;
  }

  /** The agent shows what a registration asked for, with the source's defaults for blanks. */
  ghost predicate ShowsRequest(a: AgentData, req: Request) {
    && a.hostname == (if req.hostname == "" then "unknown" else req.hostname)
    && a.version == req.version
    && a.org == (if req.org == "" then "default-org" else req.org)
    && a.project == (if req.project == "" then "default-project" else req.project)
    && a.labels == req.labels
  }

  /** A run and its last operation: what both do to one agent. */
  lemma LastStep(ops: seq<Op>, id: string) returns (before: seq<Op>, op: Op)
    requires id in Run(map[], ops)
    ensures ops == before + [op] && |before| == |ops| - 1
    ensures Run(map[], ops) == Apply(Run(map[], before), op)
    ensures forall i :: i < |before| ==> Registers(ops, i, id) == Registers(before, i, id)
    ensures forall i :: i < |before| ==> Marks(ops, i, id) == Marks(before, i, id)
    ensures forall i :: i < |before| ==> Touches(ops, i, id) == Touches(before, i, id)
    ensures Registers(ops, |before|, id) <==> Enrols(op, id)
    ensures Marks(ops, |before|, id) <==> op.OpPush? && op.id == id && id in Run(map[], before)
    ensures Touches(ops, |before|, id) <==>
              Enrols(op, id) || (!op.OpRegister? && op.id == id && id in Run(map[], before))
    ensures forall i :: i > |before| ==> !Registers(ops, i, id) && !Marks(ops, i, id) && !Touches(ops, i, id)
  {
    assert ops != [];
    hide Enrols, Apply, Registers, Marks, Touches, RegisteredBefore, Run;
    before, op := ops[..|ops| - 1], ops[|ops| - 1];
    assert ops == before + [op];
    RunOneMore(before, op);
    Earlier(before, op, id);
    Latest(before, op, id);
    KnownWhenRegistered(before, id);
  }

  lemma RunOneMore(before: seq<Op>, op: Op)
    ensures Run(map[], before + [op]) == Apply(Run(map[], before), op)
  {
    hide Apply;
    var ops := before + [op];
    assert ops[..|ops| - 1] == before;
  }

  /** An agent is in the registry exactly when some operation registered it. */
  lemma {:induction false} KnownWhenRegistered(ops: seq<Op>, id: string)
    ensures id in Run(map[], ops) <==> RegisteredBefore(ops, |ops|, id)
  {
    if ops != [] {
      hide Enrols, Run, RegisteredBefore, Apply;
      var before, op := ops[..|ops| - 1], ops[|ops| - 1];
      assert ops == before + [op];
      RunOneMore(before, op);
      KnownWhenRegistered(before, id);
      Earlier(before, op, id);
      RegisteredNext(ops, |before|, id);
      StepShows(Run(map[], before), op, id);
    }
  }

  ghost predicate FirstRegistration(ops: seq<Op>, i: int, id: string) {
    Registers(ops, i, id) && forall j :: j < i ==> !Registers(ops, j, id)
  }

  ghost predicate LastRegistration(ops: seq<Op>, i: int, id: string) {
    Registers(ops, i, id) && forall j :: i < j ==> !Registers(ops, j, id)
  }

  ghost predicate LastTouch(ops: seq<Op>, i: int, id: string) {
    Touches(ops, i, id) && forall j :: i < j ==> !Touches(ops, j, id)
  }

  ghost predicate LastMark(ops: seq<Op>, i: int, id: string) {
    Marks(ops, i, id) && forall j :: i < j ==> !Marks(ops, j, id)
  }

  /** An agent was first registered at `registeredAt`. */
  lemma {:induction false} RegisteredFirst(ops: seq<Op>, id: string) returns (i: nat)
    requires id in Run(map[], ops)
    ensures FirstRegistration(ops, i, id) && Run(map[], ops)[id].registeredAt == ops[i].now
    decreases |ops|
  {
    hide Enrols, Run, RegisteredBefore, Apply, ShowsRequest;
    var before, op := LastStep(ops, id);
    StepShows(Run(map[], before), op, id);
    if id in Run(map[], before) {
      i := RegisteredFirst(before, id);
    } else {
      i := |before|;
      KnownWhenRegistered(before, id);
      NotBefore(before, id);
    }
  }

  lemma NotBefore(before: seq<Op>, id: string)
    requires !RegisteredBefore(before, |before|, id)
    ensures forall j :: !Registers(before, j, id)
  {
    hide Enrols;
  }

  /** Its host, version, tenant and labels are those of its last registration. */
  lemma {:induction false} RegisteredLast(ops: seq<Op>, id: string) returns (i: nat)
    requires id in Run(map[], ops)
    ensures LastRegistration(ops, i, id) && ShowsRequest(Run(map[], ops)[id], ops[i].req)
    decreases |ops|
  {
    hide Enrols, Run, RegisteredBefore, Apply;
    var before, op := LastStep(ops, id);
    StepShows(Run(map[], before), op, id);
    if Enrols(op, id) {
      i := |before|;
    } else {
      i := RegisteredLast(before, id);
    }
  }

  /** It was last seen at its last registration, heartbeat or push. */
  lemma {:induction false} SeenLast(ops: seq<Op>, id: string) returns (i: nat)
    requires id in Run(map[], ops)
    ensures LastTouch(ops, i, id) && Run(map[], ops)[id].lastSeenAt == ops[i].now
    decreases |ops|
  {
    hide Enrols, Run, RegisteredBefore, Apply, ShowsRequest;
    var before, op := LastStep(ops, id);
    StepShows(Run(map[], before), op, id);
    if Enrols(op, id) || (!op.OpRegister? && op.id == id) {
      i := |before|;
    } else {
      i := SeenLast(before, id);
    }
  }

  /** Its push time is that of its last push, and unset when it never pushed. */
  lemma {:induction false} PushedLast(ops: seq<Op>, id: string) returns (i: nat)
    requires id in Run(map[], ops)
    ensures var last := Run(map[], ops)[id].lastPushAt;
            if last.Some? then LastMark(ops, i, id) && last.value == ops[i].now else forall j :: !Marks(ops, j, id)
    decreases |ops|
  {
    hide Enrols, Run, RegisteredBefore, Apply, ShowsRequest;
    var before, op := LastStep(ops, id);
    StepShows(Run(map[], before), op, id);
    i := |before|;
    if id in Run(map[], before) {
      if !(op.OpPush? && op.id == id) { i := PushedLast(before, id); }
    } else {
      KnownWhenRegistered(before, id);
      NeverMarked(before, id);
    }
  }

  lemma NeverMarked(before: seq<Op>, id: string)
    requires !RegisteredBefore(before, |before|, id)
    ensures forall j :: !Marks(before, j, id)
  {
    hide Registers;
  }

  /**
   * So everything an agent shows is read off the run: it was first registered at `registeredAt`; its host,
   * version, tenant and labels are those of its last registration, with defaults for blanks; it was last
   * seen at its last registration, heartbeat or push; and it last pushed at `lastPushAt`, if ever.
   */
  lemma AgentIsItsHistory(ops: seq<Op>, id: string) returns (first: nat, last: nat, seen: nat, pushed: nat)
    requires id in Run(map[], ops)
    ensures FirstRegistration(ops, first, id) && LastRegistration(ops, last, id) && LastTouch(ops, seen, id)
    ensures var a := Run(map[], ops)[id];
            && a.registeredAt == ops[first].now && ShowsRequest(a, ops[last].req) && a.lastSeenAt == ops[seen].now
            && if a.lastPushAt.Some? then LastMark(ops, pushed, id) && a.lastPushAt == Some(ops[pushed].now)
               else forall j :: !Marks(ops, j, id)
  {
    hide Run, Registers, Touches, Marks, ShowsRequest;
    first := RegisteredFirst(ops, id);
    last := RegisteredLast(ops, id);
    seen := SeenLast(ops, id);
    pushed := PushedLast(ops, id);
  }

  /**
   * Liveness as a reader sees it. After every run with a monotone clock, a later read shows an agent as
   * stale exactly when each registration, heartbeat and push of it lies more than the stale limit back,
   * and as online otherwise; nothing else about the agent changes with the read.
   */
  lemma StaleExactly(ops: seq<Op>, id: string, staleAfter: int, now: int)
    requires Monotone(ops) && NoLaterThan(ops, now) && id in Run(map[], ops)
    ensures var a := Shown(Run(map[], ops)[id], staleAfter, now);
            && (a.status == "stale" <==> forall i :: Touches(ops, i, id) ==> now - ops[i].now > staleAfter)
            && (a.status == "online" <==> exists i :: Touches(ops, i, id) && now - ops[i].now <= staleAfter)
            && a.(status := "") == Run(map[], ops)[id].(status := "")
  {
    hide Run, RegisteredBefore;
    var last := SeenLast(ops, id);
    forall i | Touches(ops, i, id) ensures 0 <= i <= last && ops[i].now <= ops[last].now { }
    assert |"stale"| != |"online"|;
  }
}

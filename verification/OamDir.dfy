/**
 * The OAM directory client: an in-process list (L1), a shared store with expiry (L2) and a remote
 * fetch. The mutex is held only while L1 is read or written, so calls interleave between phases.
 */
module OamDir {
  import opened Prelude

  const CACHE_TTL: int := 30_000_000_000

  const L2_TTL: int := CACHE_TTL * 10

  datatype Org = Org(id: string, name: string, source: string)

  /** A Go slice of organizations, which may be nil. */
  datatype Slice = Nil | Elems(orgs: seq<Org>)

  function Contents(s: Slice): seq<Org> {
    match s case Nil => [] case Elems(orgs) => orgs
  }

  /** `append([]Org(nil), s...)`: a copy, which is nil when there is nothing to copy. */
  function Copy(s: Slice): (r: Slice)
    ensures Contents(r) == Contents(s)
  {
    if Contents(s) == [] then Nil else s
  }

  /** An L2 entry and when it was stored. */
  datatype Entry = Entry(list: Slice, storedAt: int)

  /**
   * The L1 list and its time stamp. `origin` records when the list entered L2 or was fetched, and
   * `readAt` when the call that installed it got hold of it; the code does not keep these two.
   */
  datatype L1 = L1(list: Slice, at: int, origin: int, readAt: int)

  predicate Fresh(l1: L1, now: int) {
    now - l1.at < CACHE_TTL && l1.list != Nil
  }

  predicate Live(e: Entry, now: int) {
    now < e.storedAt + L2_TTL
  }

  // ----- Concurrent calls -----

  datatype Failure = Unconfigured | FetchError

  datatype Phase =
    | Starting
    | ReadingL2(stale: Slice)
    | Fetching(stale: Slice)
    | Storing(list: Slice, fetchedAt: int)
    | Installing(list: Slice, origin: int, readAt: int)
    | ServedFresh(list: Slice, age: int, lag: int)
    | ServedRefreshed(list: Slice, age: int, lag: int)
    | ServedStale(list: Slice)
    | Failed(why: Failure)

  /** A call; `sawList` records that L1 held a non-empty list when the call first took the lock. */
  datatype Call = Call(phase: Phase, sawList: bool)

  datatype System = System(l1: L1, l2: Option<Entry>, now: int, calls: map<nat, Call>)

  datatype Step =
    | Invoke(c: nat, configured: bool)
    | Lookup(c: nat)
    | HitL2(c: nat)
    | MissL2(c: nat)
    | FetchOk(c: nat, list: Slice)
    | FetchFail(c: nat)
    | StoreL2(c: nat, kept: bool)
    | Install(c: nat)
    | PeerStore(list: Slice)
    | Tick(d: nat)

  function Put(s: System, c: nat, phase: Phase): System
    requires c in s.calls
  {
    s.(calls := s.calls[c := s.calls[c].(phase := phase)])
  }

  /** One step of one call, of the clock or of another hub sharing L2; `None` when it cannot happen. */
  function Do(s: System, step: Step): Option<System> {
    match step
    case Invoke(c, configured) =>
      if c in s.calls then None
      else Some(s.(calls := s.calls[c := Call(if configured then Starting else Failed(Unconfigured), false)]))
    case Lookup(c) =>
      if c !in s.calls || !s.calls[c].phase.Starting? then None
      else
        var t := s.(calls := s.calls[c := Call(Starting, Contents(s.l1.list) != [])]);
        if Fresh(s.l1, s.now) then
          Some(Put(t, c, ServedFresh(Copy(s.l1.list), s.now - s.l1.origin, s.l1.at - s.l1.readAt)))
        else Some(Put(t, c, ReadingL2(Copy(s.l1.list))))
    case HitL2(c) =>
      if c !in s.calls || !s.calls[c].phase.ReadingL2? || s.l2.None? || !Live(s.l2.value, s.now) then None
      else Some(Put(s, c, Installing(s.l2.value.list, s.l2.value.storedAt, s.now)))
    case MissL2(c) =>
      if c !in s.calls || !s.calls[c].phase.ReadingL2? then None
      else Some(Put(s, c, Fetching(s.calls[c].phase.stale)))
    case FetchOk(c, list) =>
      if c !in s.calls || !s.calls[c].phase.Fetching? then None else Some(Put(s, c, Storing(list, s.now)))
    case FetchFail(c) =>
      if c !in s.calls || !s.calls[c].phase.Fetching? then None
      else
        var stale := s.calls[c].phase.stale;
        Some(Put(s, c, if |Contents(stale)| > 0 then ServedStale(stale) else Failed(FetchError)))
    case StoreL2(c, kept) =>
      if c !in s.calls || !s.calls[c].phase.Storing? then None
      else
        var p := s.calls[c].phase;
        var t := if kept then s.(l2 := Some(Entry(p.list, s.now))) else s;
        Some(Put(t, c, Installing(p.list, p.fetchedAt, p.fetchedAt)))
    case Install(c) =>
      if c !in s.calls || !s.calls[c].phase.Installing? then None
      else
        var p := s.calls[c].phase;
        var t := s.(l1 := L1(p.list, s.now, p.origin, p.readAt));
        Some(Put(t, c, ServedRefreshed(p.list, s.now - p.origin, s.now - p.readAt)))
    case PeerStore(list) => Some(s.(l2 := Some(Entry(list, s.now))))
    case Tick(d) => Some(s.(now := s.now + d))
  }

  /** The state after a list of steps; `None` when one of them cannot happen. */
  function Run(s: System, steps: seq<Step>): Option<System> {
    if steps == [] then Some(s)
    else
      var t := Run(s, steps[..|steps| - 1]);
      if t.None? then None else Do(t.value, steps[|steps| - 1])
  }

  /** A new client: nothing in L1, nothing in L2, no calls. */
  function Init(now: int): System {
    System(L1(Nil, 0, 0, 0), None, now, map[])
  }

  // ----- Where lists come from -----

  /** Step `i` fetched the organizations in `list` or stored them in L2. */
  ghost predicate Supplies(steps: seq<Step>, i: int, list: Slice) {
    0 <= i < |steps| && (steps[i].FetchOk? || steps[i].PeerStore?) && Contents(steps[i].list) == Contents(list)
  }

  ghost predicate Supplied(steps: seq<Step>, list: Slice) {
    exists i :: Supplies(steps, i, list)
  }

  /** A slice that is nil or empty, or was supplied. */
  ghost predicate SuppliedOrEmpty(steps: seq<Step>, list: Slice) {
    Contents(list) == [] || Supplied(steps, list)
  }

  ghost predicate PhaseSupplied(steps: seq<Step>, p: Phase) {
    match p
    case ReadingL2(stale) => SuppliedOrEmpty(steps, stale)
    case Fetching(stale) => SuppliedOrEmpty(steps, stale)
    case Storing(list, _) => Supplied(steps, list)
    case Installing(list, _, _) => Supplied(steps, list)
    case ServedFresh(list, _, _) => Supplied(steps, list)
    case ServedRefreshed(list, _, _) => Supplied(steps, list)
    case ServedStale(list) => Supplied(steps, list)
    case _ => true
  }

  ghost predicate AllSupplied(steps: seq<Step>, s: System) {
    && (s.l1.list != Nil ==> Supplied(steps, s.l1.list))
    && (s.l2.Some? ==> Supplied(steps, s.l2.value.list))
    && forall c :: c in s.calls ==> PhaseSupplied(steps, s.calls[c].phase)
  }

  lemma SuppliedEarlier(steps: seq<Step>, last: Step, list: Slice)
    requires Supplied(steps, list)
    ensures Supplied(steps + [last], list)
  {
    var i :| Supplies(steps, i, list);
    assert Supplies(steps + [last], i, list);
  }

  lemma AllSuppliedEarlier(steps: seq<Step>, last: Step, s: System)
    requires AllSupplied(steps, s)
    ensures AllSupplied(steps + [last], s)
  {
    forall list | Supplied(steps, list) ensures Supplied(steps + [last], list) {
      SuppliedEarlier(steps, last, list);
    }
  }

  lemma StepKeepsSupplied(steps: seq<Step>, last: Step, s: System, t: System)
    requires AllSupplied(steps, s) && Do(s, last) == Some(t)
    ensures AllSupplied(steps + [last], t)
  {
    AllSuppliedEarlier(steps, last, s);
    if last.FetchOk? || last.PeerStore? {
      assert Supplies(steps + [last], |steps|, last.list);
    }
    hide Supplied;
    if last.Lookup? {
      SuppliedCopy(steps + [last], s.l1.list);
    }
  }

  lemma SuppliedCopy(steps: seq<Step>, list: Slice)
    ensures Supplied(steps, list) ==> Supplied(steps, Copy(list))
    ensures |Contents(list)| > 0 && Supplied(steps, list) ==> |Contents(Copy(list))| > 0
  {
    if i :| Supplies(steps, i, list) { assert Supplies(steps, i, Copy(list)); }
  }

  lemma {:induction false} RunSupplied(now: int, steps: seq<Step>)
    requires Run(Init(now), steps).Some?
    ensures AllSupplied(steps, Run(Init(now), steps).value)
  {
    if steps != [] {
      var before := steps[..|steps| - 1];
      RunSupplied(now, before);
      assert steps == before + [steps[|steps| - 1]];
      StepKeepsSupplied(before, steps[|steps| - 1], Run(Init(now), before).value, Run(Init(now), steps).value);
    }
  }

  ghost predicate Serves(p: Phase, list: Slice) {
    (p.ServedFresh? || p.ServedRefreshed? || p.ServedStale?) && p.list == list
  }

  /**
   * Provenance: in every interleaving, a list returned without an error holds the organizations
   * that some earlier fetch or L2 store of the same run supplied.
   */
  lemma ServedListsWereSupplied(now: int, steps: seq<Step>, c: nat, list: Slice)
    requires Run(Init(now), steps).Some?
    requires var s := Run(Init(now), steps).value; c in s.calls && Serves(s.calls[c].phase, list)
    ensures exists i :: Supplies(steps, i, list)
  {
    RunSupplied(now, steps);
  }

  // ----- A call that has seen a list does not fail -----

  ghost predicate KeepsServing(s: System) {
    forall c :: c in s.calls && s.calls[c].sawList ==>
      match s.calls[c].phase
      case Starting => false
      case ReadingL2(stale) => Contents(stale) != []
      case Fetching(stale) => Contents(stale) != []
      case Failed(_) => false
      case _ => true
  }

  lemma StepKeepsServing(s: System, step: Step, t: System)
    requires KeepsServing(s) && Do(s, step) == Some(t)
    ensures KeepsServing(t)
  {
  }

  /**
   * A call whose first look at L1 finds a non-empty list never returns an error, whatever its
   * fetches and the other calls do.
   */
  lemma {:induction false} SeenListNeverFails(now: int, steps: seq<Step>)
    requires Run(Init(now), steps).Some?
    ensures KeepsServing(Run(Init(now), steps).value)
    ensures var s := Run(Init(now), steps).value;
            forall c :: c in s.calls && s.calls[c].sawList ==> !s.calls[c].phase.Failed?
  {
    if steps != [] {
      var before := steps[..|steps| - 1];
      SeenListNeverFails(now, before);
      StepKeepsServing(Run(Init(now), before).value, steps[|steps| - 1], Run(Init(now), steps).value);
    }
  }

  /** The same, for a whole run split where the call takes the lock. */
  lemma LookupOfListNeverFails(now: int, before: seq<Step>, c: nat, after: seq<Step>)
    requires Run(Init(now), before).Some? && Run(Init(now), before + [Lookup(c)] + after).Some?
    requires Contents(Run(Init(now), before).value.l1.list) != []
    ensures var s := Run(Init(now), before + [Lookup(c)] + after).value;
            c in s.calls && !s.calls[c].phase.Failed?
  {
    SawListStays(now, before, c, after);
    SeenListNeverFails(now, before + [Lookup(c)] + after);
  }

  lemma {:induction false} SawListStays(now: int, before: seq<Step>, c: nat, after: seq<Step>)
    requires Run(Init(now), before).Some? && Run(Init(now), before + [Lookup(c)] + after).Some?
    requires Contents(Run(Init(now), before).value.l1.list) != []
    ensures var s := Run(Init(now), before + [Lookup(c)] + after).value;
            c in s.calls && s.calls[c].sawList && s.calls[c].phase != Starting
    decreases |after|
  {
    var steps := before + [Lookup(c)] + after;
    var shorter := steps[..|steps| - 1];
    if after == [] {
      assert shorter == before && steps[|steps| - 1] == Lookup(c);
    } else {
      var rest := after[..|after| - 1];
      assert shorter == before + [Lookup(c)] + rest;
      assert steps[|steps| - 1] == after[|after| - 1];
      SawListStays(now, before, c, rest);
    }
  }

  /**
   * The first lock is what counts, not the moment of the call: a call made while L1 holds a list can
   * still fail if, before it takes the lock, another call installs an empty list and that expires.
   */
  lemma InvokedWithListCanFail(org: Org) returns (early: seq<Step>, steps: seq<Step>)
    ensures early <= steps && |early| < |steps| && steps[|early|] == Invoke(2, true)
    ensures Run(Init(0), early).Some? && Contents(Run(Init(0), early).value.l1.list) == [org]
    ensures Run(Init(0), steps).Some? && 2 in Run(Init(0), steps).value.calls
    ensures Run(Init(0), steps).value.calls[2].phase == Failed(FetchError)
  {
    hide Run;
    var s0 := Init(0);
    RunNothing(s0);
    var e, t := CallInstalls(s0, [], s0, 0, Elems([org]));
    e, t := Extend(s0, e, t, Tick(CACHE_TTL));
    early := e;
    e, t := Extend(s0, e, t, Invoke(2, true));
    assert e[|early|] == Invoke(2, true);
    e, t := CallInstalls(s0, e, t, 1, Elems([]));
    e, t := Extend(s0, e, t, Tick(CACHE_TTL));
    e, t := Extend(s0, e, t, Lookup(2));
    e, t := FetchFails(s0, e, t, 2);
    steps := e;
  }

  /** A new call misses both caches, fetches `list` and installs it, unheard by L2. */
  lemma CallInstalls(s0: System, steps: seq<Step>, s: System, c: nat, list: Slice) returns (e: seq<Step>, t: System)
    requires Run(s0, steps) == Some(s)
    requires c !in s.calls && !Fresh(s.l1, s.now) && s.l2 == None
    ensures steps <= e && Run(s0, e) == Some(t)
    ensures t.l1.list == list && t.l1.at == s.now == t.now && t.l2 == None
    ensures t.calls.Keys == s.calls.Keys + {c} && forall d :: d in s.calls ==> t.calls[d] == s.calls[d]
  {
    hide Run, Do;
    e, t := Looks(s0, steps, s, c);
    e, t := FetchInstalls(s0, e, t, c, list, false);
  }

  lemma RunNothing(s: System)
    ensures Run(s, []) == Some(s)
  {
  }

  /** A run one step longer. */
  lemma Extend(s0: System, steps: seq<Step>, s: System, step: Step) returns (longer: seq<Step>, t: System)
    requires Run(s0, steps) == Some(s) && Do(s, step).Some?
    ensures longer == steps + [step] && Some(t) == Do(s, step) && Run(s0, longer) == Some(t)
  {
    longer := steps + [step];
    t := Do(s, step).value;
    assert longer[..|longer| - 1] == steps;
  }

  /** With this rest of the run the call that looks at L1 after `before` ends in an error. */
  ghost predicate FailsAfter(s0: System, before: seq<Step>, c: nat, after: seq<Step>) {
    var end := Run(s0, before + [Lookup(c)] + after);
    end.Some? && c in end.value.calls && end.value.calls[c].phase.Failed?
  }

  lemma {:induction false} ServedFreshStays(s0: System, before: seq<Step>, s: System, c: nat, after: seq<Step>)
    requires Run(s0, before) == Some(s) && c in s.calls && s.calls[c].phase.ServedFresh?
    requires Run(s0, before + after).Some?
    ensures c in Run(s0, before + after).value.calls && Run(s0, before + after).value.calls[c] == s.calls[c]
    decreases |after|
  {
    var steps := before + after;
    if after == [] {
      assert steps == before;
    } else {
      var rest := after[..|after| - 1];
      assert steps[..|steps| - 1] == before + rest;
      ServedFreshStays(s0, before, s, c, rest);
    }
  }

  /**
   * What a call's first look at L1 decides: it can still end in an error, for some behaviour of the
   * directory, of L2 and of the other calls, exactly when L1 holds no organizations and is not fresh.
   */
  lemma FirstLookDecides(now: int, before: seq<Step>, s: System, c: nat)
    requires Run(Init(now), before) == Some(s) && c in s.calls && s.calls[c].phase.Starting?
    ensures (exists after :: FailsAfter(Init(now), before, c, after))
       <==> Contents(s.l1.list) == [] && !Fresh(s.l1, s.now)
  {
    var s0 := Init(now);
    var looked, t := Extend(s0, before, s, Lookup(c));
    if after :| FailsAfter(s0, before, c, after) {
      if Contents(s.l1.list) != [] { LookupOfListNeverFails(now, before, c, after); }
      if Fresh(s.l1, s.now) { ServedFreshStays(s0, looked, t, c, after); }
    }
    if Contents(s.l1.list) == [] && !Fresh(s.l1, s.now) {
      var missed, u := Extend(s0, looked, t, MissL2(c));
      var failed, v := Extend(s0, missed, u, FetchFail(c));
      assert failed == before + [Lookup(c)] + [MissL2(c), FetchFail(c)];
      assert FailsAfter(s0, before, c, [MissL2(c), FetchFail(c)]);
    }
  }

  // ----- How old a served list can be -----

  ghost predicate PhaseTimed(s: System, p: Phase) {
    match p
    case Storing(_, fetchedAt) => fetchedAt <= s.now
    case Installing(_, origin, readAt) => origin <= readAt <= s.now && readAt - origin < L2_TTL
    case ServedFresh(_, age, lag) => 0 <= lag && 0 <= age < CACHE_TTL + L2_TTL + lag
    case ServedRefreshed(_, age, lag) => 0 <= lag && 0 <= age < L2_TTL + lag
    case _ => true
  }

  ghost predicate Timed(s: System) {
    && (s.l1.list != Nil ==> s.l1.origin <= s.l1.readAt <= s.l1.at <= s.now && s.l1.readAt - s.l1.origin < L2_TTL)
    && (s.l2.Some? ==> s.l2.value.storedAt <= s.now)
    && forall c :: c in s.calls ==> PhaseTimed(s, s.calls[c].phase)
  }

  lemma StepKeepsTimed(s: System, step: Step, t: System)
    requires Timed(s) && Do(s, step) == Some(t)
    ensures Timed(t)
  {
  }

  /**
   * In every interleaving, a list served from fresh L1 entered L2 or was fetched less than eleven
   * cache lifetimes ago, plus the delay between the moment the installing call got it and the moment
   * it stamped L1; and a list served by the call that installed it, less than ten lifetimes plus that
   * delay. Ages do not compound, because an L2 hit never stores into L2.
   */
  lemma {:induction false} ServedListsAreBoundedlyOld(now: int, steps: seq<Step>)
    requires Run(Init(now), steps).Some?
    ensures Timed(Run(Init(now), steps).value)
    ensures var s := Run(Init(now), steps).value;
            forall c :: c in s.calls && s.calls[c].phase.ServedFresh? ==>
              s.calls[c].phase.age < 11 * CACHE_TTL + s.calls[c].phase.lag
    ensures var s := Run(Init(now), steps).value;
            forall c :: c in s.calls && s.calls[c].phase.ServedRefreshed? ==>
              s.calls[c].phase.age < 10 * CACHE_TTL + s.calls[c].phase.lag
  {
    if steps != [] {
      var before := steps[..|steps| - 1];
      ServedListsAreBoundedlyOld(now, before);
      StepKeepsTimed(Run(Init(now), before).value, steps[|steps| - 1], Run(Init(now), steps).value);
    }
  }

  // ----- One call at a time -----

  /** What the outside world does to one call: the time, the configuration, L2 and the directory. */
  datatype World = World(now: int, configured: bool, l2Answers: bool, fetched: Option<Slice>, l2Keeps: bool)

  datatype Outcome =
    | Fetched(list: Slice)
    | FromL2(list: Slice)
    | FromL1(list: Slice)
    | Stale(list: Slice)
    | Error(why: Failure)

  datatype Store = Store(l1: L1, l2: Option<Entry>)

  /** An uninterrupted, instantaneous call. */
  function Atomic(st: Store, w: World): (Store, Outcome) {
    if !w.configured then (st, Error(Unconfigured))
    else if Fresh(st.l1, w.now) then (st, FromL1(Copy(st.l1.list)))
    else if w.l2Answers && st.l2.Some? && Live(st.l2.value, w.now) then
      var e := st.l2.value;
      (st.(l1 := L1(e.list, w.now, e.storedAt, w.now)), FromL2(e.list))
    else if w.fetched.None? then
      (st, if |Contents(Copy(st.l1.list))| > 0 then Stale(Copy(st.l1.list)) else Error(FetchError))
    else
      var list := w.fetched.value;
      (Store(L1(list, w.now, w.now, w.now), if w.l2Keeps then Some(Entry(list, w.now)) else st.l2), Fetched(list))
  }

  /**
   * Which outcome a call has, what it returns and what it leaves behind, from what the caches held and
   * what the outside world would have answered. A live L2 entry is served whatever the fetch would do.
   */
  ghost predicate Explained(before: Store, w: World, after: Store, out: Outcome) {
    var young := before.l1.list != Nil && w.now < before.l1.at + CACHE_TTL;
    var hit := w.l2Answers && before.l2.Some? && w.now < before.l2.value.storedAt + L2_TTL;
    var held := Contents(before.l1.list);
    && (out == Error(Unconfigured) <==> !w.configured)
    && (out.FromL1? <==> w.configured && young)
    && (out.FromL2? <==> w.configured && !young && hit)
    && (out.Fetched? <==> w.configured && !young && !hit && w.fetched.Some?)
    && (out.Stale? <==> w.configured && !young && !hit && w.fetched.None? && held != [])
    && (out == Error(FetchError) <==> w.configured && !young && !hit && w.fetched.None? && held == [])
    && (out.FromL1? || out.Stale? ==> Contents(out.list) == held)
    && (out.FromL1? || out.Stale? || out.Error? ==> after == before)
    && (out.FromL2? ==>
          && out.list == before.l2.value.list && after.l2 == before.l2
          && after.l1 == L1(out.list, w.now, before.l2.value.storedAt, w.now))
    && (out.Fetched? ==>
          && out.list == w.fetched.value && after.l1 == L1(out.list, w.now, w.now, w.now)
          && after.l2 == if w.l2Keeps then Some(Entry(out.list, w.now)) else before.l2)
  }

  lemma OutcomeCases(st: Store, w: World)
    ensures Explained(st, w, Atomic(st, w).0, Atomic(st, w).1)
  {
  }

  class Client {
    var cached: Slice
    var cachedAt: int
    ghost var origin: int
    ghost var readAt: int
    var l2: Option<Entry>

    constructor (l2: Option<Entry>)
      ensures View() == Store(L1(Nil, 0, 0, 0), l2)
    {
      cached, cachedAt, origin, readAt := Nil, 0, 0, 0;
      this.l2 := l2;
    }

    ghost function View(): Store
      reads this
    {
      Store(L1(cached, cachedAt, origin, readAt), l2)
    }

    /** L2 may have lost an entry before it expires, but never serves one after. */
    method LoadRedisStale(w: World) returns (orgs: Slice, ok: bool)
      ensures ok <==> w.l2Answers && l2.Some? && Live(l2.value, w.now)
      ensures ok ==> orgs == l2.value.list
    {
      if !w.l2Answers || l2.None? || !Live(l2.value, w.now) {
        return Nil, false;
      }
      return l2.value.list, true;
    }

    method Organizations(w: World) returns (out: Outcome)
      modifies this
      ensures (View(), out) == Atomic(old(View()), w)
      ensures Explained(old(View()), w, View(), out)
    {
      OutcomeCases(View(), w);
      hide Explained;
      if !w.configured {
        return Error(Unconfigured);
      }
      if w.now - cachedAt < CACHE_TTL && cached != Nil {
        return FromL1(Copy(cached));
      }
      var stale := Copy(cached);
      var orgs, ok := LoadRedisStale(w);
      if ok {
        cached, cachedAt := orgs, w.now;
        origin, readAt := l2.value.storedAt, w.now;
        return FromL2(orgs);
      }
      if w.fetched.None? {
        if |Contents(stale)| > 0 {
          return Stale(stale);
        }
        return Error(FetchError);
      }
      orgs := w.fetched.value;
      if w.l2Keeps {
        l2 := Some(Entry(orgs, w.now));
      }
      cached, cachedAt := orgs, w.now;
      origin, readAt := w.now, w.now;
      return Fetched(orgs);
    }
  }

  /** The phase in which the step system ends a call with this outcome. */
  ghost predicate EndsWith(p: Phase, out: Outcome) {
    match out
    case Fetched(list) => p.ServedRefreshed? && p.list == list
    case FromL2(list) => p.ServedRefreshed? && p.list == list
    case FromL1(list) => p.ServedFresh? && p.list == list
    case Stale(list) => p == ServedStale(list)
    case Error(why) => p == Failed(why)
  }

  /** From a miss in L1: the L2 hit. */
  lemma HitInstalls(s0: System, steps: seq<Step>, s: System, c: nat) returns (e: seq<Step>, t: System)
    requires Run(s0, steps) == Some(s) && c in s.calls && s.calls[c].phase.ReadingL2?
    requires s.l2.Some? && Live(s.l2.value, s.now)
    ensures e == steps + [HitL2(c), Install(c)] && Run(s0, e) == Some(t)
    ensures t == s.(l1 := L1(s.l2.value.list, s.now, s.l2.value.storedAt, s.now),
                    calls := s.calls[c := s.calls[c].(phase :=
                      ServedRefreshed(s.l2.value.list, s.now - s.l2.value.storedAt, 0))])
  {
    hide Run;
    e, t := Extend(s0, steps, s, HitL2(c));
    e, t := Extend(s0, e, t, Install(c));
  }

  /** From a miss in L1: the fetch that succeeds. */
  lemma FetchInstalls(s0: System, steps: seq<Step>, s: System, c: nat, list: Slice, kept: bool)
      returns (e: seq<Step>, t: System)
    requires Run(s0, steps) == Some(s) && c in s.calls && s.calls[c].phase.ReadingL2?
    ensures e == steps + [MissL2(c), FetchOk(c, list), StoreL2(c, kept), Install(c)] && Run(s0, e) == Some(t)
    ensures t == s.(l1 := L1(list, s.now, s.now, s.now), l2 := if kept then Some(Entry(list, s.now)) else s.l2,
                    calls := s.calls[c := s.calls[c].(phase := ServedRefreshed(list, 0, 0))])
  {
    hide Run;
    e, t := Extend(s0, steps, s, MissL2(c));
    e, t := Extend(s0, e, t, FetchOk(c, list));
    e, t := Extend(s0, e, t, StoreL2(c, kept));
    e, t := Extend(s0, e, t, Install(c));
  }

  /** From a miss in L1: the fetch that fails. */
  lemma FetchFails(s0: System, steps: seq<Step>, s: System, c: nat) returns (e: seq<Step>, t: System)
    requires Run(s0, steps) == Some(s) && c in s.calls && s.calls[c].phase.ReadingL2?
    ensures e == steps + [MissL2(c), FetchFail(c)] && Run(s0, e) == Some(t)
    ensures var stale := s.calls[c].phase.stale;
            t == s.(calls := s.calls[c := s.calls[c].(phase :=
                      if |Contents(stale)| > 0 then ServedStale(stale) else Failed(FetchError))])
  {
    hide Run;
    e, t := Extend(s0, steps, s, MissL2(c));
    e, t := Extend(s0, e, t, FetchFail(c));
  }

  /** A configured call up to its look at L1. */
  lemma Looks(s0: System, steps: seq<Step>, s: System, c: nat) returns (e: seq<Step>, t: System)
    requires Run(s0, steps) == Some(s) && c !in s.calls
    ensures e == steps + [Invoke(c, true), Lookup(c)] && Run(s0, e) == Some(t) && t == s.(calls := t.calls)
    ensures c in t.calls && t.calls == s.calls[c := t.calls[c]]
    ensures if Fresh(s.l1, s.now) then t.calls[c].phase.ServedFresh? && t.calls[c].phase.list == Copy(s.l1.list)
            else t.calls[c].phase == ReadingL2(Copy(s.l1.list))
  {
    hide Run;
    e, t := Extend(s0, steps, s, Invoke(c, true));
    e, t := Extend(s0, e, t, Lookup(c));
  }

  /**
   * The atomic call is the step system's call when nobody else moves and no time passes, step by step: it
   * reads L2 whenever L1 is not fresh, and fetches only when L2 has nothing.
   */
  lemma AtomicIsUninterrupted(s: System, c: nat, w: World) returns (steps: seq<Step>, t: System)
    requires c !in s.calls && w.now == s.now
    ensures Run(s, steps) == Some(t) && t.now == s.now
    ensures var (st, out) := Atomic(Store(s.l1, s.l2), w);
            Store(t.l1, t.l2) == st && c in t.calls && EndsWith(t.calls[c].phase, out)
    ensures forall d :: d in s.calls ==> d in t.calls && t.calls[d] == s.calls[d]
    ensures var young := s.l1.list != Nil && w.now < s.l1.at + CACHE_TTL;
            var hit := w.l2Answers && s.l2.Some? && w.now < s.l2.value.storedAt + L2_TTL;
            var rest := if young then []
                        else if hit then [HitL2(c), Install(c)]
                        else if w.fetched.None? then [MissL2(c), FetchFail(c)]
                        else [MissL2(c), FetchOk(c, w.fetched.value), StoreL2(c, w.l2Keeps), Install(c)];
            steps == if w.configured then [Invoke(c, true), Lookup(c)] + rest else [Invoke(c, false)]
  {
    RunNothing(s);
    if w.configured {
      hide Run, Do, Copy;
      steps, t := Looks(s, [], s, c);
      if !Fresh(s.l1, s.now) {
        if w.l2Answers && s.l2.Some? && Live(s.l2.value, s.now) {
          steps, t := HitInstalls(s, steps, t, c);
        } else if w.fetched.None? {
          steps, t := FetchFails(s, steps, t, c);
        } else {
          steps, t := FetchInstalls(s, steps, t, c, w.fetched.value, w.l2Keeps);
        }
      }
    } else {
      hide Run;
      steps, t := Extend(s, [], s, Invoke(c, false));
    }
  }

  /** The store after the first calls of a list. */
  function After(st: Store, ws: seq<World>): Store {
    if ws == [] then st else Atomic(After(st, ws[..|ws| - 1]), ws[|ws| - 1]).0
  }

  ghost predicate Monotone(ws: seq<World>) {
    forall i, j :: 0 <= i < j < |ws| ==> ws[i].now <= ws[j].now
  }

  ghost predicate StoreTimed(st: Store, now: int) {
    && (st.l1.list != Nil ==> st.l1.readAt == st.l1.at <= now && 0 <= st.l1.readAt - st.l1.origin < L2_TTL)
    && (st.l2.Some? ==> st.l2.value.storedAt <= now)
  }

  function Empty(l2: Option<Entry>): Store { Store(L1(Nil, 0, 0, 0), l2) }

  lemma AtomicTimed(st: Store, w: World)
    requires StoreTimed(st, w.now)
    ensures StoreTimed(Atomic(st, w).0, w.now)
    ensures var (after, out) := Atomic(st, w);
            out.FromL1? || out.FromL2? || out.Fetched? ==> 0 <= w.now - after.l1.origin < 11 * CACHE_TTL
  {
  }

  lemma {:induction false} AfterTimed(l2: Option<Entry>, ws: seq<World>, now: int)
    requires Monotone(ws)
    requires forall i :: 0 <= i < |ws| ==> ws[i].now <= now
    requires l2.Some? ==> l2.value.storedAt <= now && forall i :: 0 <= i < |ws| ==> l2.value.storedAt <= ws[i].now
    ensures StoreTimed(After(Empty(l2), ws), now)
  {
    if |ws| > 0 {
      var before, w := ws[..|ws| - 1], ws[|ws| - 1];
      AfterTimed(l2, before, w.now);
      AtomicTimed(After(Empty(l2), before), w);
    }
  }

  /**
   * In every sequential run with a monotone clock, a list served without the failure fallback
   * entered L2 or was fetched less than eleven cache lifetimes before.
   */
  lemma SequentialAge(l2: Option<Entry>, ws: seq<World>, w: World)
    requires Monotone(ws) && forall i :: 0 <= i < |ws| ==> ws[i].now <= w.now
    requires l2.Some? ==> l2.value.storedAt <= w.now && forall i :: 0 <= i < |ws| ==> l2.value.storedAt <= ws[i].now
    ensures var (after, out) := Atomic(After(Empty(l2), ws), w);
            out.FromL1? || out.FromL2? || out.Fetched? ==> 0 <= w.now - after.l1.origin < 11 * CACHE_TTL
  {
    AfterTimed(l2, ws, w.now);
    AtomicTimed(After(Empty(l2), ws), w);
  }

  predicate Refreshes(out: Outcome) { out.Fetched? || out.FromL2? }

  /** While L1 is fresh nothing refreshes it, so the next refresh is at least a lifetime later. */
  lemma {:induction false} NoEarlyRefresh(st: Store, ws: seq<World>, lo: nat, j: nat)
    requires st.l1.list != Nil && lo <= j < |ws|
    requires forall i :: lo <= i <= j ==> ws[i].now < st.l1.at + CACHE_TTL
    ensures After(st, ws[lo..j]) == st
    ensures !Refreshes(Atomic(st, ws[j]).1)
  {
    if lo < j {
      NoEarlyRefresh(st, ws, lo, j - 1);
      assert ws[lo..j][..j - 1 - lo] == ws[lo..j - 1] && ws[lo..j][j - 1 - lo] == ws[j - 1];
    }
  }

  lemma RefreshStamps(st: Store, w: World)
    requires Refreshes(Atomic(st, w).1)
    ensures Atomic(st, w).0.l1.at == w.now
  {
  }

  /** Two refreshes of L1, the first with a non-nil list, are at least a cache lifetime apart. */
  lemma RefreshesAreSpaced(st: Store, ws: seq<World>, i: nat, j: nat)
    requires Monotone(ws) && i < j < |ws|
    requires Refreshes(Atomic(After(st, ws[..i]), ws[i]).1)
    requires After(st, ws[..i + 1]).l1.list != Nil
    requires Refreshes(Atomic(After(st, ws[..j]), ws[j]).1)
    ensures ws[j].now - ws[i].now >= CACHE_TTL
  {
    var mid := After(st, ws[..i + 1]);
    assert ws[..i + 1][..i] == ws[..i];
    assert mid == Atomic(After(st, ws[..i]), ws[i]).0;
    RefreshStamps(After(st, ws[..i]), ws[i]);
    hide Atomic, After, Refreshes;
    if ws[j].now < ws[i].now + CACHE_TTL {
      NoEarlyRefresh(mid, ws, i + 1, j);
      assert ws[..i + 1] + ws[i + 1..j] == ws[..j];
      AfterConcat(st, ws[..i + 1], ws[i + 1..j]);
    }
  }

  lemma {:induction false} AfterConcat(st: Store, a: seq<World>, b: seq<World>)
    ensures After(st, a + b) == After(After(st, a), b)
  {
    if b == [] {
      assert a + b == a;
    } else {
      AfterConcat(st, a, b[..|b| - 1]);
      assert (a + b)[..|a + b| - 1] == a + b[..|b| - 1];
    }
  }
}

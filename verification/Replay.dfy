/** The session-replay timeline: flattening chunks, the stable sort and the per-type counts. */
module Replay {
  import opened Sorting
  import opened Sums

  /** A decoded event of a chunk: its own time in milliseconds (0 when it has none), its type and the rest. */
  datatype RawEvent = RawEvent(t: int, type_: string, rest: string)

  /** A chunk row: its index, the time to fall back on, and its events. */
  datatype Chunk = Chunk(index: int, fallbackMs: int, events: seq<RawEvent>)

  datatype ReplayEvent = ReplayEvent(t: int, type_: string, chunk: int, raw: RawEvent)

  function MapReplayEvent(m: RawEvent, chunkIdx: int, fallbackMs: int): ReplayEvent {
    ReplayEvent(
      if m.t == 0 then fallbackMs else m.t,
      if m.type_ == "navigate" then "navigation" else m.type_,
      chunkIdx, m)
  }

  /** The events of one chunk, then of all chunks, in order. */
  ghost function MapAll(events: seq<RawEvent>, chunkIdx: int, fallbackMs: int): seq<ReplayEvent> {
    if events == [] then []
    else
      var n := |events| - 1;
      MapAll(events[..n], chunkIdx, fallbackMs) + [MapReplayEvent(events[n], chunkIdx, fallbackMs)]
  }

  ghost function Flatten(chunks: seq<Chunk>): seq<ReplayEvent> {
    if chunks == [] then []
    else
      var c := chunks[|chunks| - 1];
      Flatten(chunks[..|chunks| - 1]) + MapAll(c.events, c.index, c.fallbackMs)
  }

  /** By time, then by chunk: the order the handler sorts with. */
  function ByTimeThenChunk(): (ReplayEvent, ReplayEvent) -> bool {
    (a: ReplayEvent, b: ReplayEvent) => a.t < b.t || (a.t == b.t && a.chunk <= b.chunk)
  }

  function ByTime(): (ReplayEvent, ReplayEvent) -> bool {
    (a: ReplayEvent, b: ReplayEvent) => a.t <= b.t
  }

  function TypeOf(e: ReplayEvent): string { e.type_ }

  /** The counts of each type that occurs. */
  ghost predicate IsHistogram(events: seq<ReplayEvent>, byType: map<string, int>) {
    && (forall e :: e in events ==> e.type_ in byType)
    && (forall k :: k in byType ==> byType[k] == KeySum(events, TypeOf, k, Unit<ReplayEvent>) > 0)
  }

  method FlattenChunks(chunks: seq<Chunk>) returns (events: seq<ReplayEvent>)
    ensures events == Flatten(chunks)
  {
    events := [];
    assert chunks[..0] == [];
    for i := 0 to |chunks|
      invariant events == Flatten(chunks[..i])
    {
      var c := chunks[i];
      ghost var before := events;
      assert before + [] == before && c.events[..0] == [];
      for j := 0 to |c.events|
        invariant events == before + MapAll(c.events[..j], c.index, c.fallbackMs)
      {
        assert c.events[..j + 1][..j] == c.events[..j];
        events := events + [MapReplayEvent(c.events[j], c.index, c.fallbackMs)];
      }
      assert c.events[..|c.events|] == c.events && chunks[..i + 1][..i] == chunks[..i];
    }
    assert chunks[..|chunks|] == chunks;
  }

  method CountTypes(events: seq<ReplayEvent>) returns (byType: map<string, int>)
    ensures IsHistogram(events, byType)
  {
    hide KeySum;
    byType := map[];
    for i := 0 to |events|
      invariant IsHistogram(events[..i], byType)
    {
      var e := events[i];
      assert events[..i + 1] == events[..i] + [e];
      HistogramNext(events[..i], byType, e);
      byType := byType[e.type_ := (if e.type_ in byType then byType[e.type_] else 0) + 1];
    }
    assert events[..|events|] == events;
  }

  lemma HistogramNext(events: seq<ReplayEvent>, byType: map<string, int>, e: ReplayEvent)
    requires IsHistogram(events, byType)
    ensures IsHistogram(events + [e], byType[e.type_ := (if e.type_ in byType then byType[e.type_] else 0) + 1])
  {
    var next := byType[e.type_ := (if e.type_ in byType then byType[e.type_] else 0) + 1];
    forall k | k in next ensures next[k] == KeySum(events + [e], TypeOf, k, Unit<ReplayEvent>) > 0 {
      KeySumSnoc(events, e, TypeOf, k, Unit<ReplayEvent>);
      if k !in byType { TypeAbsent(events, k); }
    }
  }

  lemma {:induction false} TypeAbsent(events: seq<ReplayEvent>, k: string)
    requires forall e :: e in events ==> e.type_ != k
    ensures KeySum(events, TypeOf, k, Unit<ReplayEvent>) == 0
  {
    if events != [] {
      assert events[0] in events;
      TypeAbsent(events[1..], k);
    }
  }

  lemma FlattenSnoc(chunks: seq<Chunk>, c: Chunk)
    ensures Flatten(chunks + [c]) == Flatten(chunks) + MapAll(c.events, c.index, c.fallbackMs)
    ensures Flatten([]) == []
  {
    hide MapAll;
    assert (chunks + [c])[..|chunks|] == chunks;
  }

  lemma {:induction false} FlattenAppend(a: seq<Chunk>, b: seq<Chunk>)
    ensures Flatten(a + b) == Flatten(a) + Flatten(b)
    decreases |b|
  {
    hide Flatten, MapAll;
    if b == [] {
      assert a + b == a;
      FlattenSnoc([], Chunk(0, 0, []));
    } else {
      var before, c := b[..|b| - 1], b[|b| - 1];
      assert b == before + [c] && a + b == (a + before) + [c];
      FlattenAppend(a, before);
      FlattenSnoc(before, c);
      FlattenSnoc(a + before, c);
    }
  }

  /**
   * Each chunk contributes its events in order, between those of the chunks around it: each with its own
   * time, or the chunk's when it has none; its own type, `navigate` being renamed; the chunk's index; and
   * the event itself.
   */
  lemma ChunkContributes(before: seq<Chunk>, c: Chunk, after: seq<Chunk>) returns (own: seq<ReplayEvent>)
    ensures Flatten(before + [c] + after) == Flatten(before) + own + Flatten(after)
    ensures |own| == |c.events|
    ensures forall i :: 0 <= i < |own| ==>
      var raw := c.events[i];
      && own[i].t == (if raw.t != 0 then raw.t else c.fallbackMs)
      && own[i].type_ == (if raw.type_ == "navigate" then "navigation" else raw.type_)
      && own[i].chunk == c.index && own[i].raw == raw
  {
    own := MapAll(c.events, c.index, c.fallbackMs);
    MapAllChunk(c.events, c.index, c.fallbackMs);
    hide Flatten, MapAll;
    FlattenAppend(before + [c], after);
    FlattenSnoc(before, c);
  }

  /** The timeline: the flattened events sorted stably, with their counts by type. */
  method ServeRUMReplayTimeline(chunks: seq<Chunk>)
      returns (events: seq<ReplayEvent>, byType: map<string, int>, eventCount: int, chunkCount: int)
    ensures StableSortOf(ByTimeThenChunk(), Flatten(chunks), events)
    ensures forall i, j :: 0 <= i < j < |events| ==>
      events[i].t < events[j].t || (events[i].t == events[j].t && events[i].chunk <= events[j].chunk)
    ensures IsHistogram(events, byType)
    ensures eventCount == |Flatten(chunks)| && chunkCount == |chunks|
  {
    events := FlattenChunks(chunks);
    OrdersAreTotal();
    events := SortSliceStable(ByTimeThenChunk(), events);
    assert |multiset(events)| == |events|;
    assert forall i, j :: 0 <= i < j < |events| ==> ByTimeThenChunk()(events[i], events[j]);
    byType := CountTypes(events);
    eventCount, chunkCount := |events|, |chunks|;
  }

  lemma OrdersAreTotal()
    ensures TotalPreorder(ByTimeThenChunk()) && TotalPreorder(ByTime())
  {
  }

  ghost predicate Ascending(chunks: seq<Chunk>) {
    forall i, j :: 0 <= i < j < |chunks| ==> chunks[i].index <= chunks[j].index
  }

  ghost predicate ChunksAscend(events: seq<ReplayEvent>) {
    forall i, j :: 0 <= i < j < |events| ==> events[i].chunk <= events[j].chunk
  }

  lemma {:induction false} MapAllChunk(events: seq<RawEvent>, chunkIdx: int, fallbackMs: int)
    ensures |MapAll(events, chunkIdx, fallbackMs)| == |events|
    ensures forall i :: 0 <= i < |events| ==>
      MapAll(events, chunkIdx, fallbackMs)[i] == MapReplayEvent(events[i], chunkIdx, fallbackMs)
  {
    if events != [] { MapAllChunk(events[..|events| - 1], chunkIdx, fallbackMs); }
  }

  lemma {:induction false} FlattenAscends(chunks: seq<Chunk>)
    requires Ascending(chunks)
    ensures ChunksAscend(Flatten(chunks))
    ensures forall e :: e in Flatten(chunks) ==> chunks != [] && e.chunk <= chunks[|chunks| - 1].index
  {
    if chunks != [] {
      var before, c := chunks[..|chunks| - 1], chunks[|chunks| - 1];
      FlattenAscends(before);
      MapAllChunk(c.events, c.index, c.fallbackMs);
      var a, b := Flatten(before), MapAll(c.events, c.index, c.fallbackMs);
      assert forall e :: e in a ==> before != [] && e.chunk <= before[|before| - 1].index <= c.index;
      forall i, j | 0 <= i < j < |a + b| ensures (a + b)[i].chunk <= (a + b)[j].chunk {
        if i < |a| { assert (a + b)[i] in a; }
      }
    }
  }

  /** The events at time `t`, in order. */
  ghost function AtTime(t: int, s: seq<ReplayEvent>): seq<ReplayEvent> {
    if s == [] then [] else (if s[0].t == t then [s[0]] else []) + AtTime(t, s[1..])
  }

  lemma {:induction false} TiedByTime(x: ReplayEvent, s: seq<ReplayEvent>)
    ensures TiedWith(ByTime(), x, s) == AtTime(x.t, s)
  {
    if s != [] { TiedByTime(x, s[1..]); }
  }

  lemma {:induction false} AtTimeMembers(t: int, s: seq<ReplayEvent>)
    ensures forall e :: e in AtTime(t, s) <==> e in s && e.t == t
  {
    if s != [] {
      AtTimeMembers(t, s[1..]);
      assert s == [s[0]] + s[1..];
    }
  }

  /** Filtering one time out of a chunk-ascending list keeps it chunk-ascending. */
  lemma {:induction false} AtTimeAscends(t: int, s: seq<ReplayEvent>)
    requires forall i, j :: 0 <= i < j < |s| && s[i].t == s[j].t == t ==> s[i].chunk <= s[j].chunk
    ensures Sorted(ByTimeThenChunk(), AtTime(t, s))
  {
    if s != [] {
      forall i, j | 0 <= i < j < |s[1..]| && s[1..][i].t == s[1..][j].t == t
        ensures s[1..][i].chunk <= s[1..][j].chunk
      {
        assert s[1..][i] == s[i + 1] && s[1..][j] == s[j + 1];
      }
      AtTimeAscends(t, s[1..]);
      AtTimeMembers(t, s[1..]);
      var r := AtTime(t, s[1..]);
      if s[0].t == t {
        forall j | 0 <= j < |r| ensures ByTimeThenChunk()(s[0], r[j]) {
          assert r[j] in r;
          var k :| 0 <= k < |s[1..]| && s[1..][k] == r[j];
          assert s[k + 1] == r[j];
        }
      }
    }
  }

  /** Ties by time and chunk, inside one time, are those of the whole list. */
  lemma {:induction false} TiedInsideTime(x: ReplayEvent, t: int, s: seq<ReplayEvent>)
    ensures TiedWith(ByTimeThenChunk(), x, AtTime(t, s)) == if x.t == t then TiedWith(ByTimeThenChunk(), x, s) else []
  {
    if s != [] {
      TiedInsideTime(x, t, s[1..]);
      if s[0].t == t {
        assert AtTime(t, s)[1..] == AtTime(t, s[1..]);
      } else {
        assert AtTime(t, s) == AtTime(t, s[1..]);
      }
    }
  }

  /** Each time keeps its events in order: they are chunk-ascending on both sides, with the same ties. */
  lemma SameAtTime(input: seq<ReplayEvent>, out: seq<ReplayEvent>, t: int)
    requires ChunksAscend(input) && StableSortOf(ByTimeThenChunk(), input, out)
    ensures AtTime(t, out) == AtTime(t, input)
  {
    var le := ByTimeThenChunk();
    AtTimeAscends(t, input);
    forall i, j | 0 <= i < j < |out| && out[i].t == out[j].t == t ensures out[i].chunk <= out[j].chunk {
      assert le(out[i], out[j]);
    }
    AtTimeAscends(t, out);
    forall x ensures TiedWith(le, x, AtTime(t, out)) == TiedWith(le, x, AtTime(t, input)) {
      TiedInsideTime(x, t, out);
      TiedInsideTime(x, t, input);
    }
    OrdersAreTotal();
    StableSortUnique(le, AtTime(t, out), AtTime(t, input));
  }

  /**
   * Chunks arrive in ascending order, so breaking ties by chunk changes nothing: the timeline is the
   * stable sort of the flattened events by time alone.
   */
  lemma TimelineIsStableByTime(chunks: seq<Chunk>, events: seq<ReplayEvent>)
    requires Ascending(chunks) && StableSortOf(ByTimeThenChunk(), Flatten(chunks), events)
    ensures StableSortOf(ByTime(), Flatten(chunks), events)
    ensures forall other :: StableSortOf(ByTime(), Flatten(chunks), other) ==> other == events
  {
    var input := Flatten(chunks);
    FlattenAscends(chunks);
    forall i, j | 0 <= i < j < |events| ensures ByTime()(events[i], events[j]) {
      assert ByTimeThenChunk()(events[i], events[j]);
    }
    forall x ensures TiedWith(ByTime(), x, events) == TiedWith(ByTime(), x, input) {
      TiedByTime(x, events);
      TiedByTime(x, input);
      SameAtTime(input, events, x.t);
    }
    OrdersAreTotal();
    forall other | StableSortOf(ByTime(), input, other) ensures other == events {
      forall x ensures TiedWith(ByTime(), x, other) == TiedWith(ByTime(), x, events) { }
      StableSortUnique(ByTime(), other, events);
    }
  }

  /** When chunks do not ascend, the chunk index does matter. */
  lemma UnorderedChunksDiffer(t: int, a: RawEvent, b: RawEvent)
    requires t != 0 && a.t == b.t == t
    ensures var x, y := MapReplayEvent(a, 1, 0), MapReplayEvent(b, 0, 0);
            && StableSortOf(ByTimeThenChunk(), [x, y], [y, x])
            && !StableSortOf(ByTime(), [x, y], [y, x])
  {
    var x, y := MapReplayEvent(a, 1, 0), MapReplayEvent(b, 0, 0);
    assert [x, y][1..] == [y] && [y, x][1..] == [x] && [x][1..] == [] && [y][1..] == [];
    TiedByTime(x, [x, y]);
    TiedByTime(x, [y, x]);
    assert AtTime(t, [x]) == [x] && AtTime(t, [y]) == [y];
    assert AtTime(t, [x, y]) == [x, y] && AtTime(t, [y, x]) == [y, x];
    assert [x, y][0] != [y, x][0];
  }

  function CountAt(byType: map<string, int>): string -> int {
    (k: string) => if k in byType then byType[k] else 0
  }

  /** The counts by type add up to the number of events. */
  lemma CountsAddUp(events: seq<ReplayEvent>, byType: map<string, int>, keys: seq<string>)
    requires IsHistogram(events, byType) && Distinct(keys) && forall k :: k in keys <==> k in byType
    ensures Sum(keys, CountAt(byType)) == |events|
  {
    forall i | 0 <= i < |keys| ensures CountAt(byType)(keys[i]) == KeySum(events, TypeOf, keys[i], Unit<ReplayEvent>) {
      assert keys[i] in keys;
    }
    SumOfGroups(events, TypeOf, Unit<ReplayEvent>, keys, (k: string) => k, CountAt(byType), keys);
    PartitionTotal(events, TypeOf, keys, Unit<ReplayEvent>);
    SumOfUnits(events);
  }
}

/** The logs explorer's pages: the time filter, one page, and the walk along `next_cursor`. */
module Logs {
  import opened Prelude
  import opened Arith
  import opened Sorting

  /** A stored log row that passes the request's service, level and text filters. Times are milliseconds. */
  datatype LogRow = LogRow(id: nat, ts: int)

  datatype Cursor = NoCursor | Unparsable | Before(ms: int)

  datatype Request = Request(
    cursor: Cursor, all: bool, since: Option<int>, from: Option<int>, to: Option<int>, now: int)

  const WEEK: int := 7 * 24 * 3600 * 1000

  /** The time predicates the handler adds. A cursor replaces every other bound; an unparsable one adds none. */
  predicate InWindow(r: Request, ts: int) {
    match r.cursor
    case Before(ms) => ts < ms
    case Unparsable => true
    case NoCursor =>
      if !r.all then
        && ts >= (if r.since.Some? then r.since.value else if r.from.Some? then r.from.value else r.now - WEEK)
        && (r.to.Some? ==> ts <= r.to.value)
      else r.since.Some? ==> ts >= r.since.value
  }

  /** `limit` from the query string: 100 unless positive, and never above 500. */
  function ParseLimit(v: Option<int>): (limit: int)
    ensures 1 <= limit <= 500
    ensures v.Some? && 1 <= v.value <= 500 ==> limit == v.value
    ensures v.Some? && v.value > 500 ==> limit == 500
    ensures v.None? || v.value <= 0 ==> limit == 100
  {
    var limit := if v.Some? && v.value > 0 then v.value else 100;
    if limit > 500 then 500 else limit
  }

  /** `list` holds exactly the rows of `rows`, newest first; rows of the same time may stand in any order. */
  ghost predicate Orders(list: seq<LogRow>, rows: set<LogRow>) {
    && (forall r :: r in list <==> r in rows)
    && (forall i, j :: 0 <= i < j < |list| ==> list[i] != list[j] && list[i].ts >= list[j].ts)
  }

  /** OFFSET and LIMIT. */
  function Slice(list: seq<LogRow>, offset: nat, limit: nat): seq<LogRow> {
    if offset >= |list| then [] else if |list| - offset <= limit then list[offset..] else list[offset..offset + limit]
  }

  ghost function Selected(table: set<LogRow>, r: Request): set<LogRow> {
    set x | x in table && InWindow(r, x.ts)
  }

  /**
   * What the database may answer: some newest-first order of the selected rows, cut to the page. The
   * order among rows of the same time may differ from one request to the next.
   */
  ghost predicate IsPage(table: set<LogRow>, r: Request, limit: nat, offset: nat, page: seq<LogRow>) {
    exists full :: Orders(full, Selected(table, r)) && page == Slice(full, offset, limit)
  }

  /** A row as the driver returns it: the millisecond column, and the time read back from its text. */
  datatype RawRow = RawRow(id: nat, timestampMs: int, parsed: Option<int>)

  function TimeOf(r: RawRow): int {
    if r.timestampMs != 0 then r.timestampMs else if r.parsed.Some? then r.parsed.value else 0
  }

  function HasMore(page: seq<LogRow>, limit: int): bool {
    page != [] && page[|page| - 1].ts > 0 && |page| == limit
  }

  /** Turns the rows of a page into the response's list, its next cursor and its `has_more`. */
  method ServeLogs(rows: seq<RawRow>, limit: int) returns (logs: seq<LogRow>, nextCursor: int, hasMore: bool)
    ensures |logs| == |rows| && forall i :: 0 <= i < |rows| ==> logs[i] == LogRow(rows[i].id, TimeOf(rows[i]))
    ensures forall i :: 0 <= i < |rows| ==>
      && (rows[i].timestampMs != 0 ==> logs[i].ts == rows[i].timestampMs)
      && (rows[i].timestampMs == 0 && rows[i].parsed.Some? ==> logs[i].ts == rows[i].parsed.value)
      && (rows[i].timestampMs == 0 && rows[i].parsed.None? ==> logs[i].ts == 0)
    ensures hasMore == HasMore(logs, limit)
    ensures hasMore <==> |logs| == limit && logs != [] && logs[|logs| - 1].ts > 0
    ensures nextCursor == if logs != [] && logs[|logs| - 1].ts > 0 then logs[|logs| - 1].ts else 0
  {
    logs := [];
    for i := 0 to |rows|
      invariant |logs| == i && forall k :: 0 <= k < i ==> logs[k] == LogRow(rows[k].id, TimeOf(rows[k]))
    {
      var tsMs := rows[i].timestampMs;
      if tsMs == 0 && rows[i].parsed.Some? {
        tsMs := rows[i].parsed.value;
      }
      logs := logs + [LogRow(rows[i].id, tsMs)];
    }
    nextCursor, hasMore := 0, false;
    if |logs| > 0 {
      var ts := logs[|logs| - 1].ts;
      if ts > 0 {
        nextCursor := ts;
        hasMore := |logs| == limit;
      }
    }
  }

  /** The bounds a request puts on the times it lists, each by the parameter it comes from. */
  ghost predicate Asks(r: Request, ts: int) {
    && (r.cursor.Before? ==> ts < r.cursor.ms)
    && (r.cursor == NoCursor && r.since.Some? ==> ts >= r.since.value)
    && (r.cursor == NoCursor && !r.all && r.since.None? && r.from.Some? ==> ts >= r.from.value)
    && (r.cursor == NoCursor && !r.all && r.since.None? && r.from.None? ==> ts >= r.now - 7 * 24 * 60 * 60 * 1000)
    && (r.cursor == NoCursor && !r.all && r.to.Some? ==> ts <= r.to.value)
  }

  /**
   * What a first page shows: rows of the table within the bounds of the request, newest first and at most
   * `limit` of them; and a row within the bounds that is left out is no newer than any row on the page,
   * which is then full.
   */
  lemma PageShows(table: set<LogRow>, r: Request, limit: nat, page: seq<LogRow>)
    requires IsPage(table, r, limit, 0, page)
    ensures |page| <= limit && forall x :: x in page ==> x in table && Asks(r, x.ts)
    ensures forall i, j :: 0 <= i < j < |page| ==> page[i] != page[j] && page[i].ts >= page[j].ts
    ensures forall x :: x in table && Asks(r, x.ts) && x !in page ==>
      |page| == limit && forall y :: y in page ==> x.ts <= y.ts
  {
    var full :| Orders(full, Selected(table, r)) && page == Slice(full, 0, limit);
    SliceStart(full, limit);
    forall x ensures x in Selected(table, r) <==> x in table && Asks(r, x.ts) { }
    hide InWindow, Asks, Selected;
    forall x | x in table && Asks(r, x.ts) && x !in page
      ensures |page| == limit && forall y :: y in page ==> x.ts <= y.ts
    {
      var i :| 0 <= i < |full| && full[i] == x;
      forall y | y in page ensures x.ts <= y.ts { var j :| 0 <= j < |page| && page[j] == y; }
    }
  }

  // ----- Walking along next_cursor -----

  function AllRequest(cursor: Cursor): Request { Request(cursor, true, None, None, None, 0) }

  /** The request that follows `next_cursor` from a page: the same request with the cursor filled in. */
  function Next(r: Request, page: seq<LogRow>): Request
    requires page != []
  {
    r.(cursor := Before(page[|page| - 1].ts))
  }

  /** The pages a client has seen so far: every page but the last was followed, and the last may be any page. */
  ghost predicate IsPartialWalk(table: set<LogRow>, r: Request, limit: nat, pages: seq<seq<LogRow>>)
    decreases |pages|
  {
    && pages != []
    && IsPage(table, r, limit, 0, pages[0])
    && (|pages| == 1 || (HasMore(pages[0], limit) && IsPartialWalk(table, Next(r, pages[0]), limit, pages[1..])))
  }

  /** A whole walk: `next_cursor` is followed until `has_more` is false. */
  ghost predicate IsWalk(table: set<LogRow>, r: Request, limit: nat, pages: seq<seq<LogRow>>)
    decreases |pages|
  {
    && pages != []
    && IsPage(table, r, limit, 0, pages[0])
    && if HasMore(pages[0], limit) then IsWalk(table, Next(r, pages[0]), limit, pages[1..]) else |pages| == 1
  }

  /** A walk is whole exactly when its last page says there is no more. */
  lemma {:induction false} WalkIsFinished(table: set<LogRow>, r: Request, limit: nat, pages: seq<seq<LogRow>>)
    ensures IsWalk(table, r, limit, pages) <==>
      IsPartialWalk(table, r, limit, pages) && !HasMore(pages[|pages| - 1], limit)
    decreases |pages|
  {
    hide IsPage;
    if |pages| > 1 && HasMore(pages[0], limit) {
      WalkIsFinished(table, Next(r, pages[0]), limit, pages[1..]);
    }
  }

  ghost function Rest(table: set<LogRow>, cursor: Cursor): set<LogRow> { Selected(table, AllRequest(cursor)) }

  lemma RestMember(table: set<LogRow>, cursor: Cursor, ms: int, r: LogRow)
    ensures r in Rest(table, cursor) ==> r in table
    ensures r in Rest(table, Before(ms)) <==> r in table && r.ts < ms
  {
  }

  lemma SliceShows(list: seq<LogRow>, offset: nat, limit: nat)
    ensures var page := Slice(list, offset, limit);
            && |page| == (if offset + limit <= |list| then limit else if offset <= |list| then |list| - offset else 0)
            && forall i :: 0 <= i < |page| ==> page[i] == list[offset + i]
  {
  }

  lemma SliceStart(list: seq<LogRow>, limit: nat)
    ensures |Slice(list, 0, limit)| == (if |list| <= limit then |list| else limit)
    ensures Slice(list, 0, limit) <= list
  {
    assert list[0..] == list;
  }

  /** The rows of a page, and where the rows it left out lie. */
  lemma PageFacts(table: set<LogRow>, cursor: Cursor, limit: nat, page: seq<LogRow>)
    requires limit > 0 && IsPage(table, AllRequest(cursor), limit, 0, page)
    ensures forall r :: r in page ==> r in Rest(table, cursor)
    ensures forall i, j :: 0 <= i < j < |page| ==> page[i] != page[j] && page[i].ts >= page[j].ts
    ensures |page| <= limit && |page| <= |Rest(table, cursor)|
    ensures |page| < limit ==> forall r :: r in Rest(table, cursor) ==> r in page
    ensures forall r :: r in Rest(table, cursor) && r !in page ==> page != [] && r.ts <= page[|page| - 1].ts
  {
    var full :| Orders(full, Rest(table, cursor)) && page == Slice(full, 0, limit);
    SliceStart(full, limit);
    forall r | r in Rest(table, cursor) && r !in page
      ensures |page| == limit && page != [] && r.ts <= page[|page| - 1].ts
    {
      var i :| 0 <= i < |full| && full[i] == r;
    }
    RowCount(page, Rest(table, cursor));
  }

  lemma {:induction false} RowCount(list: seq<LogRow>, rows: set<LogRow>)
    requires forall r :: r in list ==> r in rows
    requires forall i, j :: 0 <= i < j < |list| ==> list[i] != list[j]
    ensures |list| <= |rows|
  {
    if list != [] {
      var x := list[|list| - 1];
      assert x in rows;
      RowCount(list[..|list| - 1], rows - {x});
    }
  }

  lemma CountAfterPage(table: set<LogRow>, cursor: Cursor, page: seq<LogRow>)
    requires page != [] && forall i, j :: 0 <= i < j < |page| ==> page[i] != page[j] && page[i].ts >= page[j].ts
    requires forall r :: r in page ==> r in Rest(table, cursor)
    ensures |Rest(table, Before(page[|page| - 1].ts))| + |page| <= |Rest(table, cursor)|
    ensures Rest(table, Before(page[|page| - 1].ts)) <= Rest(table, cursor)
  {
    var next, rest := Rest(table, Before(page[|page| - 1].ts)), Rest(table, cursor);
    assert page[|page| - 1] in rest;
    forall r | r in next ensures r in rest && r !in page {
      assert r in table;
    }
    RowCount(page, rest - next);
    assert rest == next + (rest - next);
  }

  /** Following `next_cursor`, however long, never takes more than floor(N / limit) + 1 requests. */
  lemma {:induction false} WalkLength(table: set<LogRow>, cursor: Cursor, limit: nat, pages: seq<seq<LogRow>>)
    requires limit > 0 && IsPartialWalk(table, AllRequest(cursor), limit, pages)
    ensures |pages| <= |Rest(table, cursor)| / limit + 1
    decreases |pages|
  {
    hide IsPage, Selected, Rest, InWindow, Orders;
    var page := pages[0];
    PageFacts(table, cursor, limit, page);
    if |pages| > 1 {
      var next := Before(page[|page| - 1].ts);
      WalkLength(table, next, limit, pages[1..]);
      CountAfterPage(table, cursor, page);
      OneRequestFewer(|Rest(table, next)|, |Rest(table, cursor)|, limit);
    }
  }

  lemma OneRequestFewer(later: nat, now: nat, limit: nat)
    requires limit > 0 && later + limit <= now
    ensures later / limit + 1 <= now / limit
  {
    DivMono(later + limit, now, limit);
    DivUnique(later + limit, limit, later / limit + 1, later % limit);
  }

  /** Every row of a walk lies beyond its cursor, and no row is returned twice. */
  lemma {:induction false} WalkHasNoDuplicates(table: set<LogRow>, cursor: Cursor, limit: nat, pages: seq<seq<LogRow>>)
    requires limit > 0 && IsWalk(table, AllRequest(cursor), limit, pages)
    ensures forall r :: r in Flatten(pages) ==> r in Rest(table, cursor)
    ensures forall i, j :: 0 <= i < j < |Flatten(pages)| ==>
      Flatten(pages)[i] != Flatten(pages)[j] && Flatten(pages)[i].ts >= Flatten(pages)[j].ts
    decreases |pages|
  {
    hide IsPage, Selected, Rest, InWindow, Orders;
    var page := pages[0];
    PageFacts(table, cursor, limit, page);
    if HasMore(page, limit) {
      WalkHasNoDuplicates(table, Before(page[|page| - 1].ts), limit, pages[1..]);
      CountAfterPage(table, cursor, page);
      var later := Flatten(pages[1..]);
      forall i, j | 0 <= i < j < |page + later|
        ensures (page + later)[i] != (page + later)[j] && (page + later)[i].ts >= (page + later)[j].ts
      {
        if i < |page| <= j {
          assert later[j - |page|] in later;
          RestMember(table, cursor, page[|page| - 1].ts, later[j - |page|]);
        }
      }
    } else {
      assert pages[1..] == [] && Flatten(pages) == page;
    }
  }

  /** Page `i` is followed by another, has its last row at the time of `r`, and leaves `r` out. */
  ghost predicate CutOffAt(pages: seq<seq<LogRow>>, limit: nat, i: int, r: LogRow) {
    && 0 <= i < |pages| && HasMore(pages[i], limit)
    && pages[i][|pages[i]| - 1].ts == r.ts && r !in pages[i]
  }

  ghost predicate CutOff(pages: seq<seq<LogRow>>, limit: nat, r: LogRow) {
    exists i :: CutOffAt(pages, limit, i, r)
  }

  lemma CutOffSplit(pages: seq<seq<LogRow>>, limit: nat, r: LogRow)
    requires pages != []
    ensures CutOff(pages, limit, r) <==> CutOffAt(pages, limit, 0, r) || CutOff(pages[1..], limit, r)
  {
    if i :| CutOffAt(pages, limit, i, r) {
      if i > 0 { assert CutOffAt(pages[1..], limit, i - 1, r); }
    }
    if i :| CutOffAt(pages[1..], limit, i, r) { assert CutOffAt(pages, limit, i + 1, r); }
  }

  /** Pages of a walk end at times before its cursor. */
  lemma {:induction false} CutOffIsOlder(table: set<LogRow>, ms: int, limit: nat, pages: seq<seq<LogRow>>, r: LogRow)
    requires limit > 0 && IsWalk(table, AllRequest(Before(ms)), limit, pages) && r.ts >= ms
    ensures !CutOff(pages, limit, r)
    decreases |pages|
  {
    hide IsPage, Selected, Rest, InWindow, Orders;
    var page := pages[0];
    PageFacts(table, Before(ms), limit, page);
    CutOffSplit(pages, limit, r);
    if HasMore(page, limit) {
      assert page[|page| - 1] in page;
      RestMember(table, NoCursor, ms, page[|page| - 1]);
      CutOffIsOlder(table, page[|page| - 1].ts, limit, pages[1..], r);
    }
  }

  /**
   * With positive times, a walk misses a row exactly when the row shares the time of the last row of
   * a full page without being on that page.
   */
  lemma {:induction false} MissedRows(table: set<LogRow>, cursor: Cursor, limit: nat, pages: seq<seq<LogRow>>,
      r: LogRow)
    requires limit > 0 && IsWalk(table, AllRequest(cursor), limit, pages)
    requires (forall x :: x in table ==> x.ts > 0) && r in Rest(table, cursor)
    ensures r !in Flatten(pages) <==> CutOff(pages, limit, r)
    decreases |pages|
  {
    hide IsPage, Selected, Rest, InWindow, Orders;
    var page := pages[0];
    PageFacts(table, cursor, limit, page);
    CutOffSplit(pages, limit, r);
    if HasMore(page, limit) {
      var last := page[|page| - 1];
      var next := Before(last.ts);
      if r.ts >= last.ts {
        WalkHasNoDuplicates(table, next, limit, pages[1..]);
        RestMember(table, cursor, last.ts, r);
        CutOffIsOlder(table, last.ts, limit, pages[1..], r);
      } else {
        RestMember(table, cursor, last.ts, r);
        MissedRows(table, next, limit, pages[1..], r);
        assert forall i :: 0 <= i < |page| ==> page[i].ts >= last.ts;
      }
    } else {
      assert pages[1..] == [] && Flatten(pages) == page;
      if page != [] {
        assert page[|page| - 1] in page;
        RestMember(table, cursor, 0, page[|page| - 1]);
      }
    }
  }

  ghost predicate DistinctTimes(table: set<LogRow>) {
    forall x, y :: x in table && y in table && x.ts == y.ts ==> x == y
  }

  /**
   * With distinct positive times the pages of a whole walk, put end to end, are the newest-first list
   * of all rows.
   */
  lemma WalkIsComplete(table: set<LogRow>, limit: nat, pages: seq<seq<LogRow>>, full: seq<LogRow>)
    requires limit > 0 && IsWalk(table, AllRequest(NoCursor), limit, pages)
    requires DistinctTimes(table) && forall x :: x in table ==> x.ts > 0
    requires Orders(full, table)
    ensures Flatten(pages) == full
  {
    hide IsPage, IsWalk;
    var all := Flatten(pages);
    assert Rest(table, NoCursor) == table;
    WalkHasNoDuplicates(table, NoCursor, limit, pages);
    forall r | r in table ensures r in all {
      MissedRows(table, NoCursor, limit, pages, r);
      if i :| CutOffAt(pages, limit, i, r) {
        PageRows(table, NoCursor, limit, pages, i);
      }
    }
    var lt := (x: LogRow, y: LogRow) => x.ts > y.ts;
    forall i, j | 0 <= i < j < |all| ensures lt(all[i], all[j]) { assert all[i] in all && all[j] in all; }
    forall i, j | 0 <= i < j < |full| ensures lt(full[i], full[j]) { assert full[i] in full && full[j] in full; }
    StrictlySortedUnique(lt, all, full);
  }

  lemma {:induction false} PageRows(table: set<LogRow>, cursor: Cursor, limit: nat, pages: seq<seq<LogRow>>, i: nat)
    requires limit > 0 && IsWalk(table, AllRequest(cursor), limit, pages) && i < |pages|
    ensures forall r :: r in pages[i] ==> r in table
    decreases |pages|
  {
    hide IsPage, Selected, Rest, InWindow, Orders;
    PageFacts(table, cursor, limit, pages[0]);
    forall r | r in pages[0] ensures r in table { RestMember(table, cursor, 0, r); }
    if i > 0 { PageRows(table, Before(pages[0][|pages[0]| - 1].ts), limit, pages[1..], i - 1); }
  }

  /** Two rows of one time, one row a page: the walk ends after two requests and misses one of them. */
  lemma TiedRowIsMissed(t: int) returns (a: LogRow, b: LogRow, pages: seq<seq<LogRow>>)
    requires t > 0
    ensures a != b && a.ts == b.ts == t && IsWalk({a, b}, AllRequest(NoCursor), 1, pages)
    ensures b !in Flatten(pages)
  {
    a, b := LogRow(0, t), LogRow(1, t);
    pages := [[a], []];
    var table := {a, b};
    assert Selected(table, AllRequest(NoCursor)) == table && Selected(table, AllRequest(Before(t))) == {};
    assert Orders([a, b], table) && Slice([a, b], 0, 1) == [a];
    assert Orders([], {}) && Slice([], 0, 1) == [];
    assert pages[1..] == [[]] && pages[0] == [a];
    assert IsPage(table, AllRequest(Before(t)), 1, 0, []);
    assert IsWalk(table, AllRequest(Before(t)), 1, pages[1..]);
    assert pages[1..][1..] == [];
    assert Flatten(pages[1..]) == [] + Flatten(pages[1..][1..]) == [];
    assert Flatten(pages) == [a] + [];
  }

  /**
   * A cursor replaces the time bounds of the request it continues. For every request without a cursor
   * and every cursor time, the continued request admits a time that the request itself excludes exactly
   * when the request had a lower bound: always outside `all` mode, and with `since` inside it.
   */
  lemma CursorForgetsSince(r: Request, ms: int)
    requires r.cursor == NoCursor
    ensures (exists ts :: InWindow(r.(cursor := Before(ms)), ts) && !InWindow(r, ts)) <==> !r.all || r.since.Some?
  {
    if !r.all || r.since.Some? {
      var low := if r.since.Some? then r.since.value else if r.from.Some? then r.from.value else r.now - WEEK;
      var ts := (if low < ms then low else ms) - 1;
      assert InWindow(r.(cursor := Before(ms)), ts) && !InWindow(r, ts);
    }
  }

  /**
   * A walk that leaves its window: of two rows, at times t + 1 and t, the request since t + 1 with one row
   * a page selects the first alone; the cursor it answers with leads on to the second.
   */
  lemma WalkLeavesWindow(t: int, now: int) returns (a: LogRow, b: LogRow, r: Request, next: Request)
    requires t > 0
    ensures r == Request(NoCursor, true, Some(t + 1), None, None, now) && Selected({a, b}, r) == {a}
    ensures IsPage({a, b}, r, 1, 0, [a]) && HasMore([a], 1)
    ensures next == r.(cursor := Before(a.ts)) && IsPage({a, b}, next, 1, 0, [b])
    ensures a.ts == t + 1 && b.ts == t && !InWindow(r, b.ts)
  {
    a, b := LogRow(0, t + 1), LogRow(1, t);
    r := Request(NoCursor, true, Some(t + 1), None, None, now);
    next := r.(cursor := Before(a.ts));
    assert Selected({a, b}, r) == {a} && Selected({a, b}, next) == {b};
    assert Orders([a], {a}) && Slice([a], 0, 1) == [a];
    assert Orders([b], {b}) && Slice([b], 0, 1) == [b];
  }
}

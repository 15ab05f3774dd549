/** Walks along `next_cursor`: that they end, which tables they list completely, and when they leave their window. */
module LogWalks {
  import opened Prelude
  import opened Sorting
  import opened Sums
  import opened Logs

  // ----- Walks exist and end -----

  lemma {:induction false} Listed(rows: set<LogRow>) returns (list: seq<LogRow>)
    ensures forall r :: r in list <==> r in rows
    ensures forall i, j :: 0 <= i < j < |list| ==> list[i] != list[j]
  {
    if rows == {} {
      list := [];
    } else {
      var x :| x in rows;
      var rest := Listed(rows - {x});
      list := rest + [x];
    }
  }

  /** Any finite set of rows has a newest-first order. */
  lemma OrderExists(rows: set<LogRow>) returns (full: seq<LogRow>)
    ensures Orders(full, rows)
  {
    var list := Listed(rows);
    var newestFirst := (a: LogRow, b: LogRow) => a.ts >= b.ts;
    full := StableSort(newestFirst, list);
    StableSortMeetsContract(newestFirst, list);
    DistinctKeysPermuted(list, full, (r: LogRow) => r);
    forall r ensures r in full <==> r in rows { assert r in full <==> r in multiset(full); }
    forall i, j | 0 <= i < j < |full| ensures full[i] != full[j] && full[i].ts >= full[j].ts {
      assert newestFirst(full[i], full[j]);
    }
  }

  lemma PageExists(table: set<LogRow>, r: Request, limit: nat) returns (page: seq<LogRow>)
    ensures IsPage(table, r, limit, 0, page)
  {
    var full := OrderExists(Selected(table, r));
    page := Slice(full, 0, limit);
  }

  /** The selection of a continued request depends on its cursor alone. */
  lemma CursorSelects(table: set<LogRow>, r: Request, ms: int)
    ensures Selected(table, r.(cursor := Before(ms))) == Rest(table, Before(ms))
  {
  }

  lemma {:induction false} ContinuedWalk(table: set<LogRow>, r: Request, ms: int, limit: nat)
      returns (pages: seq<seq<LogRow>>)
    requires limit > 0 && r.cursor == Before(ms)
    ensures IsWalk(table, r, limit, pages)
    decreases |Rest(table, Before(ms))|
  {
    hide IsPage, Selected, Rest, InWindow, Orders;
    var page := PageExists(table, r, limit);
    pages := [page];
    SamePage(table, r, ms, limit, page);
    if HasMore(page, limit) {
      PageFacts(table, Before(ms), limit, page);
      CountAfterPage(table, Before(ms), page);
      var tail := ContinuedWalk(table, Next(r, page), page[|page| - 1].ts, limit);
      pages := [page] + tail;
    }
  }

  lemma SamePage(table: set<LogRow>, r: Request, ms: int, limit: nat, page: seq<LogRow>)
    requires r.cursor == Before(ms)
    ensures IsPage(table, r, limit, 0, page) <==> IsPage(table, AllRequest(Before(ms)), limit, 0, page)
  {
    CursorSelects(table, r, ms);
  }

  /** Whatever the table and the request, some walk starts with it and ends. */
  lemma WalkExists(table: set<LogRow>, r: Request, limit: nat) returns (pages: seq<seq<LogRow>>)
    requires limit > 0
    ensures IsWalk(table, r, limit, pages)
  {
    hide IsPage;
    var page := PageExists(table, r, limit);
    pages := [page];
    if HasMore(page, limit) {
      var tail := ContinuedWalk(table, Next(r, page), page[|page| - 1].ts, limit);
      pages := [page] + tail;
    }
  }

  /** Whatever pages a client has seen, it can go on to the end. */
  lemma {:induction false} WalkCompletes(table: set<LogRow>, r: Request, limit: nat, pages: seq<seq<LogRow>>)
      returns (whole: seq<seq<LogRow>>)
    requires limit > 0 && IsPartialWalk(table, r, limit, pages)
    ensures pages <= whole && IsWalk(table, r, limit, whole)
    decreases |pages|
  {
    hide IsPage;
    var page := pages[0];
    if !HasMore(page, limit) {
      whole := pages;
    } else {
      var tail;
      if |pages| == 1 {
        tail := WalkExists(table, Next(r, page), limit);
      } else {
        tail := WalkCompletes(table, Next(r, page), limit, pages[1..]);
      }
      whole := [page] + tail;
      assert pages == [page] + pages[1..];
    }
  }

  // ----- Which tables are listed completely -----

  /** No page boundary of the newest-first list falls inside a group of equal times. */
  ghost predicate CleanCuts(full: seq<LogRow>, limit: nat)
    requires limit > 0
  {
    |full| <= limit || (full[limit - 1].ts > full[limit].ts && CleanCuts(full[limit..], limit))
  }

  ghost predicate CleanAt(full: seq<LogRow>, limit: nat, k: nat) {
    0 < k * limit < |full| ==> full[k * limit - 1].ts > full[k * limit].ts
  }

  /** The boundaries lie after every multiple of the page size. */
  lemma {:induction false} CleanCutsMean(full: seq<LogRow>, limit: nat)
    requires limit > 0
    ensures CleanCuts(full, limit) <==> forall k: nat :: CleanAt(full, limit, k)
    decreases |full|
  {
    if |full| <= limit {
      forall k: nat ensures CleanAt(full, limit, k) { NoBoundary(limit, k, |full|); }
    } else {
      var rest := full[limit..];
      CleanCutsMean(rest, limit);
      forall k: nat ensures CleanAt(rest, limit, k) <==> k == 0 || CleanAt(full, limit, k + 1) {
        NextBoundary(limit, k);
      }
      assert CleanAt(full, limit, 1) <==> full[limit - 1].ts > full[limit].ts;
      if forall k: nat :: CleanAt(full, limit, k) {
        forall k: nat ensures CleanAt(rest, limit, k) { assert CleanAt(full, limit, k + 1); }
      }
      if CleanCuts(full, limit) {
        forall k: nat ensures CleanAt(full, limit, k) {
          if k > 1 { assert CleanAt(rest, limit, k - 1); }
        }
      }
    }
  }

  lemma NoBoundary(limit: nat, k: nat, n: nat)
    requires n <= limit
    ensures !(0 < k * limit < n)
  {
    if k > 0 { assert k * limit == limit + (k - 1) * limit; }
  }

  lemma NextBoundary(limit: nat, k: nat)
    ensures (k + 1) * limit == k * limit + limit
  {
  }

  /** Two newest-first orders of the same rows show the same times. */
  lemma NoNewer(a: seq<LogRow>, b: seq<LogRow>, rows: set<LogRow>, i: nat)
    requires Orders(a, rows) && Orders(b, rows) && i < |a| && i < |b|
    ensures a[i].ts <= b[i].ts
  {
    if a[i].ts > b[i].ts {
      var head := set r | r in b[..i];
      assert forall m :: i <= m < |b| ==> b[m].ts <= b[i].ts;
      forall r | r in a[..i + 1] ensures r in head {
        var j :| 0 <= j <= i && a[j] == r;
        assert r in a && r in b;
        var k :| 0 <= k < |b| && b[k] == r;
        assert r.ts >= a[i].ts;
        assert k < i;
        assert b[..i][k] == r;
      }
      RowCount(a[..i + 1], head);
      SetOfList(b[..i]);
    }
  }

  lemma {:induction false} SetOfList(list: seq<LogRow>)
    ensures |set r | r in list| <= |list|
  {
    if list != [] {
      var n := |list| - 1;
      SetOfList(list[..n]);
      assert (set r | r in list) == (set r | r in list[..n]) + {list[n]};
    }
  }

  lemma SameTimes(a: seq<LogRow>, b: seq<LogRow>, rows: set<LogRow>)
    requires Orders(a, rows) && Orders(b, rows)
    ensures |a| == |b| && forall i :: 0 <= i < |a| ==> a[i].ts == b[i].ts
  {
    SameLength(a, b, rows);
    SameLength(b, a, rows);
    forall i | 0 <= i < |a| ensures a[i].ts == b[i].ts {
      NoNewer(a, b, rows, i);
      NoNewer(b, a, rows, i);
    }
  }

  lemma SameLength(a: seq<LogRow>, b: seq<LogRow>, rows: set<LogRow>)
    requires Orders(a, rows) && Orders(b, rows)
    ensures |a| <= |b|
  {
    RowCount(a, rows);
    SetOfList(b);
    assert rows == set r | r in b;
  }

  /** After a clean boundary the rest of the list is what the next request selects. */
  lemma RestAfterCut(table: set<LogRow>, cursor: Cursor, limit: nat, full: seq<LogRow>)
    requires 0 < limit < |full| && Orders(full, Rest(table, cursor)) && full[limit - 1].ts > full[limit].ts
    ensures Orders(full[limit..], Rest(table, Before(full[limit - 1].ts)))
  {
    var ms := full[limit - 1].ts;
    assert full[limit - 1] in full;
    forall r ensures r in full[limit..] <==> r in Rest(table, Before(ms)) {
      if r in full[limit..] {
        var i :| limit <= i < |full| && full[i] == r;
        assert r in full;
      }
      if r in Rest(table, Before(ms)) {
        assert r in Rest(table, cursor);
        var i :| 0 <= i < |full| && full[i] == r;
        assert i >= limit;
        assert full[limit..][i - limit] == r;
      }
    }
  }

  /** With clean boundaries every walk returns every row. */
  lemma {:induction false} CleanWalkIsComplete(
      table: set<LogRow>, cursor: Cursor, limit: nat, full: seq<LogRow>, pages: seq<seq<LogRow>>, r: LogRow)
    requires limit > 0 && IsWalk(table, AllRequest(cursor), limit, pages)
    requires Orders(full, Rest(table, cursor)) && CleanCuts(full, limit)
    requires (forall x :: x in table ==> x.ts > 0) && r in Rest(table, cursor)
    ensures r in Flatten(pages)
    decreases |pages|
  {
    hide InWindow, Selected, Rest, IsPage;
    var page := pages[0];
    var other := OrderOfPage(table, cursor, limit, page);
    SameTimes(full, other, Rest(table, cursor));
    var i :| 0 <= i < |other| && other[i] == r;
    if i < limit {
      assert page[i] == r;
    } else {
      FirstPage(table, cursor, limit, other);
      RestMember(table, cursor, page[limit - 1].ts, r);
      RestAfterCut(table, cursor, limit, full);
      CleanWalkIsComplete(table, Before(page[limit - 1].ts), limit, full[limit..], pages[1..], r);
    }
  }

  lemma OrderOfPage(table: set<LogRow>, cursor: Cursor, limit: nat, page: seq<LogRow>) returns (full: seq<LogRow>)
    requires IsPage(table, AllRequest(cursor), limit, 0, page)
    ensures Orders(full, Rest(table, cursor)) && page == if |full| <= limit then full else full[..limit]
  {
    full :| Orders(full, Rest(table, cursor)) && page == Slice(full, 0, limit);
    SliceStart(full, limit);
  }

  /** Otherwise some walk loses the first row after the first boundary that is not clean. */
  lemma {:induction false} DirtyCutLosesRow(table: set<LogRow>, cursor: Cursor, limit: nat, full: seq<LogRow>)
      returns (pages: seq<seq<LogRow>>, r: LogRow)
    requires limit > 0 && Orders(full, Rest(table, cursor)) && !CleanCuts(full, limit)
    requires forall x :: x in table ==> x.ts > 0
    ensures IsWalk(table, AllRequest(cursor), limit, pages)
    ensures r in Rest(table, cursor) && r !in Flatten(pages)
    decreases |full|
  {
    hide InWindow, Selected, Rest, IsPage;
    var page := full[..limit];
    var last := full[limit - 1];
    FirstPage(table, cursor, limit, full);
    assert full[limit] in full;
    RestMember(table, cursor, last.ts, full[limit]);
    var tail;
    if last.ts > full[limit].ts {
      RestAfterCut(table, cursor, limit, full);
      tail, r := DirtyCutLosesRow(table, Before(last.ts), limit, full[limit..]);
      RestMember(table, cursor, last.ts, r);
      assert r in full[limit..] && r in full;
      assert r !in page;
    } else {
      tail := WalkExists(table, AllRequest(Before(last.ts)), limit);
      r := full[limit];
      WalkHasNoDuplicates(table, Before(last.ts), limit, tail);
      assert r !in page;
    }
    pages := [page] + tail;
    assert pages[1..] == tail;
  }

  /** The first page that a newest-first order of the selection gives. */
  lemma FirstPage(table: set<LogRow>, cursor: Cursor, limit: nat, full: seq<LogRow>)
    requires 0 < limit < |full| && Orders(full, Rest(table, cursor)) && forall x :: x in table ==> x.ts > 0
    ensures IsPage(table, AllRequest(cursor), limit, 0, full[..limit]) && HasMore(full[..limit], limit)
    ensures forall r :: r in full[..limit] ==> r.ts >= full[limit - 1].ts
  {
    SliceStart(full, limit);
    assert full[..limit] == Slice(full, 0, limit);
    assert full[limit - 1] in full;
    RestMember(table, cursor, 0, full[limit - 1]);
  }

  /**
   * Which tables a walk lists completely. For positive times, every walk over the whole table, put end
   * to end, is a newest-first list of all its rows if and only if no multiple of the page size falls
   * between two rows of equal time in the newest-first list `full`.
   */
  lemma WalksListEverythingExactly(table: set<LogRow>, limit: nat, full: seq<LogRow>)
    requires limit > 0 && Orders(full, table) && forall x :: x in table ==> x.ts > 0
    ensures (forall pages :: IsWalk(table, AllRequest(NoCursor), limit, pages) ==> Orders(Flatten(pages), table))
       <==> forall k: nat :: CleanAt(full, limit, k)
  {
    CleanCutsMean(full, limit);
    assert Rest(table, NoCursor) == table;
    hide Rest, CleanAt, CleanCuts, IsWalk;
    if CleanCuts(full, limit) {
      forall pages | IsWalk(table, AllRequest(NoCursor), limit, pages) ensures Orders(Flatten(pages), table) {
        WalkHasNoDuplicates(table, NoCursor, limit, pages);
        forall r | r in table ensures r in Flatten(pages) {
          CleanWalkIsComplete(table, NoCursor, limit, full, pages, r);
        }
      }
    } else {
      var pages, r := DirtyCutLosesRow(table, NoCursor, limit, full);
      assert !Orders(Flatten(pages), table);
    }
  }

  // ----- When a walk leaves its window -----

  /** A walk from `r` returns a row that `r` itself excludes. */
  ghost predicate Leaves(table: set<LogRow>, r: Request, limit: nat, pages: seq<seq<LogRow>>, x: LogRow) {
    limit > 0 && IsWalk(table, r, limit, pages) && x in Flatten(pages) && !InWindow(r, x.ts)
  }

  /**
   * For a request without a cursor: over some table, with some page size, a walk leaves the window of the
   * request exactly when the request has a lower bound and its window holds a positive time.
   */
  lemma WalksLeaveWindowExactly(r: Request)
    requires r.cursor == NoCursor
    ensures (exists table, limit, pages, x :: Leaves(table, r, limit, pages, x))
       <==> (!r.all || r.since.Some?) && exists t :: t > 0 && InWindow(r, t)
  {
    forall table, limit, pages, x | Leaves(table, r, limit, pages, x)
      ensures (!r.all || r.since.Some?) && exists t :: t > 0 && InWindow(r, t)
    {
      LeavingNeedsMore(table, r, limit, pages, x);
    }
    if !r.all || r.since.Some? {
      if t :| t > 0 && InWindow(r, t) {
        var a, b, pages := LeavingWalk(r, t);
        assert Leaves({a, b}, r, 1, pages, b);
      }
    }
  }

  lemma LeavingNeedsMore(table: set<LogRow>, r: Request, limit: nat, pages: seq<seq<LogRow>>, x: LogRow)
    requires r.cursor == NoCursor && Leaves(table, r, limit, pages, x)
    ensures (!r.all || r.since.Some?) && exists t :: t > 0 && InWindow(r, t)
  {
    var page := pages[0];
    var full :| Orders(full, Selected(table, r)) && page == Slice(full, 0, limit);
    SliceStart(full, limit);
    forall y | y in page ensures InWindow(r, y.ts) { assert y in full; }
    if |pages| == 1 { OnePage(pages); }
    assert page != [] ==> page[|page| - 1] in page;
  }

  lemma OnePage(pages: seq<seq<LogRow>>)
    requires |pages| == 1
    ensures Flatten(pages) == pages[0]
  {
    assert pages[1..] == [];
  }

  /** A row in the window, a row just below it, one row a page. */
  lemma LeavingWalk(r: Request, t: int) returns (a: LogRow, b: LogRow, pages: seq<seq<LogRow>>)
    requires r.cursor == NoCursor && (!r.all || r.since.Some?) && t > 0 && InWindow(r, t)
    ensures Leaves({a, b}, r, 1, pages, b)
  {
    var low := if r.since.Some? then r.since.value else if r.from.Some? then r.from.value else r.now - WEEK;
    a, b := LogRow(0, t), LogRow(1, low - 1);
    var table := {a, b};
    assert Selected(table, r) == {a} && Orders([a], {a}) && Slice([a], 0, 1) == [a];
    var next := Next(r, [a]);
    assert Selected(table, next) == {b} && Orders([b], {b}) && Slice([b], 0, 1) == [b];
    var tail := [[b]];
    if b.ts > 0 {
      var after := Next(next, [b]);
      assert Selected(table, after) == {} && Orders([], {}) && Slice([], 0, 1) == [];
      assert IsWalk(table, after, 1, [[]]);
      tail := [[b], []];
      assert tail[1..] == [[]];
    }
    assert IsWalk(table, next, 1, tail);
    pages := [[a]] + tail;
    assert pages[1..] == tail && Flatten(pages) == [a] + Flatten(tail) && Flatten(tail) == [b] + Flatten(tail[1..]);
  }
}

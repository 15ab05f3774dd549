/** Folding captured outbound HTTP requests into one record per method and URL. */
module HttpCalls {
  import opened Sorting
  import opened Sums

  /** A captured request; an absent string is empty and an absent number is 0. */
  datatype Request = Request(
    url: string, urlAlt: string, method_: string, durationMs: real, duration: real, status: int, statusAlt: int,
    error: string, bytesSent: real, requestSize: real, bytesReceived: real, responseSize: real)

  /** The `http` column of a span row: a list of requests, or text that does not decode. */
  datatype Row = Requests(list: seq<Request>) | Undecodable

  /** The accumulator of one key. */
  datatype CallStats = CallStats(
    url: string, method_: string, callCount: int, errorCount: int, totalDuration: real,
    minDuration: real, maxDuration: real, sent: int, received: int)

  /** One record of the response. */
  datatype HttpCall = HttpCall(
    url: string, method_: string, callCount: int, avgDuration: real, minDuration: real, maxDuration: real,
    errorCount: int, errorRate: real, sent: int, received: int)

  /** The value the minimum starts from. */
  const SENTINEL: real := 999999.0

  // ----- What one request contributes -----

  function UrlOf(r: Request): string { if r.url == "" then r.urlAlt else r.url }

  function MethodOf(r: Request): string { if r.method_ == "" then "GET" else r.method_ }

  function Key(method_: string, url: string): string { method_ + " " + url }

  function KeyOf(r: Request): string { Key(MethodOf(r), UrlOf(r)) }

  /** The duration in milliseconds, 0 when the request carries none. */
  function Duration(r: Request): (d: real)
    ensures d >= 0.0
  {
    if r.durationMs > 0.0 then r.durationMs else if r.duration > 0.0 then r.duration * 1000.0 else 0.0
  }

  predicate Failed(r: Request) {
    (if r.status == 0 then r.statusAlt else r.status) >= 400 || r.error != ""
  }

  function Bytes(first: real, second: real): (n: int)
    ensures n >= 0
  {
    if first > 0.0 then first.Floor else if second > 0.0 then second.Floor else 0
  }

  // ----- The requests counted, and their groups -----

  ghost function Usable(list: seq<Request>): seq<Request> {
    if list == [] then []
    else
      var r := list[|list| - 1];
      var before := Usable(list[..|list| - 1]);
      if UrlOf(r) == "" then before else before + [r]
  }

  ghost function Accepted(rows: seq<Row>): seq<Request> {
    if rows == [] then []
    else
      var row := rows[|rows| - 1];
      var before := Accepted(rows[..|rows| - 1]);
      if row.Requests? then before + Usable(row.list) else before
  }

  /** The requests with key `k`, in order. */
  ghost function Group(s: seq<Request>, k: string): seq<Request> {
    if s == [] then []
    else
      var r := s[|s| - 1];
      var before := Group(s[..|s| - 1], k);
      if KeyOf(r) == k then before + [r] else before
  }

  ghost function Total(g: seq<Request>): real {
    if g == [] then 0.0 else Total(g[..|g| - 1]) + Duration(g[|g| - 1])
  }

  function ErrorOf(r: Request): int { if Failed(r) then 1 else 0 }

  function SentBy(r: Request): int { Bytes(r.bytesSent, r.requestSize) }

  function ReceivedBy(r: Request): int { Bytes(r.bytesReceived, r.responseSize) }

  /** `d` is the shortest of the positive durations. */
  ghost predicate IsShortest(g: seq<Request>, d: real) {
    && d > 0.0
    && (exists r :: r in g && Duration(r) == d)
    && forall r :: r in g && Duration(r) > 0.0 ==> d <= Duration(r)
  }

  /** `d` is the longest duration; 0 when there is none. */
  ghost predicate IsLongest(g: seq<Request>, d: real) {
    && (d == 0.0 || exists r :: r in g && Duration(r) == d)
    && d >= 0.0
    && forall r :: r in g ==> Duration(r) <= d
  }

  // ----- The fold -----

  ghost predicate Counts(c: CallStats, g: seq<Request>) {
    && c.callCount == |g| && c.errorCount == Sum(g, ErrorOf)
    && c.sent == Sum(g, SentBy) && c.received == Sum(g, ReceivedBy)
  }

  ghost predicate Durations(c: CallStats, g: seq<Request>) {
    && c.totalDuration == Total(g) && IsLongest(g, c.maxDuration)
    && (forall r :: r in g && Duration(r) > 0.0 ==> c.minDuration <= Duration(r))
    && (c.minDuration == SENTINEL || (c.minDuration < SENTINEL && IsShortest(g, c.minDuration)))
  }

  /** `c` has accumulated exactly the requests `g`. */
  ghost predicate Tracks(c: CallStats, g: seq<Request>) {
    && (g == [] || (c.url == UrlOf(g[0]) && c.method_ == MethodOf(g[0])))
    && Counts(c, g)
    && Durations(c, g)
  }

  /** The map holds the accumulators of exactly the keys that occur. */
  ghost predicate Folded(calls: map<string, CallStats>, s: seq<Request>) {
    && (forall r :: r in s ==> KeyOf(r) in calls)
    && (forall k :: k in calls ==> Group(s, k) != [] && Tracks(calls[k], Group(s, k)))
  }

  function Add(c: CallStats, r: Request): CallStats {
    var d := Duration(r);
    c.(callCount := c.callCount + 1,
       totalDuration := if d > 0.0 then c.totalDuration + d else c.totalDuration,
       minDuration := if d > 0.0 && d < c.minDuration then d else c.minDuration,
       maxDuration := if d > 0.0 && d > c.maxDuration then d else c.maxDuration,
       errorCount := if Failed(r) then c.errorCount + 1 else c.errorCount,
       sent := c.sent + SentBy(r),
       received := c.received + ReceivedBy(r))
  }

  lemma AddCounts(c: CallStats, g: seq<Request>, r: Request)
    requires Counts(c, g)
    ensures Counts(Add(c, r), g + [r])
  {
    SumSnoc(g, r, ErrorOf);
    SumSnoc(g, r, SentBy);
    SumSnoc(g, r, ReceivedBy);
  }

  lemma AddDurations(c: CallStats, g: seq<Request>, r: Request)
    requires Durations(c, g)
    ensures Durations(Add(c, r), g + [r])
  {
    hide Failed, SentBy, ReceivedBy, Duration;
    var h := g + [r];
    assert h[..|h| - 1] == g && r in h;
    forall x ensures x in h <==> x in g || x == r { }
  }

  lemma AddTracks(c: CallStats, g: seq<Request>, r: Request)
    requires Tracks(c, g)
    requires g == [] ==> c.url == UrlOf(r) && c.method_ == MethodOf(r)
    ensures Tracks(Add(c, r), g + [r])
  {
    hide Counts, Durations;
    AddCounts(c, g, r);
    AddDurations(c, g, r);
  }

  /** A fresh accumulator has accumulated nothing. */
  lemma FreshTracks(url: string, method_: string)
    ensures Tracks(CallStats(url, method_, 0, 0, 0.0, SENTINEL, 0.0, 0, 0), [])
  {
  }

  lemma GroupNext(s: seq<Request>, r: Request, k: string)
    ensures Group(s + [r], k) == if KeyOf(r) == k then Group(s, k) + [r] else Group(s, k)
  {
    assert (s + [r])[..|s|] == s;
  }

  lemma {:induction false} GroupAbsent(s: seq<Request>, k: string)
    requires forall r :: r in s ==> KeyOf(r) != k
    ensures Group(s, k) == []
  {
    if s != [] {
      assert s[|s| - 1] in s;
      GroupAbsent(s[..|s| - 1], k);
    }
  }

  /** One request folded into the map. */
  method Fold(calls: map<string, CallStats>, r: Request, ghost s: seq<Request>) returns (next: map<string, CallStats>)
    requires Folded(calls, s) && UrlOf(r) != ""
    ensures Folded(next, s + [r])
  {
    hide Tracks, Group, Add, KeyOf, UrlOf, MethodOf;
    var key := KeyOf(r);
    var call;
    if key in calls {
      call := calls[key];
    } else {
      call := CallStats(UrlOf(r), MethodOf(r), 0, 0, 0.0, SENTINEL, 0.0, 0, 0);
      GroupAbsent(s, key);
      FreshTracks(UrlOf(r), MethodOf(r));
    }
    AddTracks(call, Group(s, key), r);
    next := calls[key := Add(call, r)];
    forall k ensures Group(s + [r], k) == if key == k then Group(s, k) + [r] else Group(s, k) {
      GroupNext(s, r, k);
    }
  }

  method FoldRows(rows: seq<Row>) returns (calls: map<string, CallStats>, totalCalls: int)
    ensures Folded(calls, Accepted(rows)) && totalCalls == |Accepted(rows)|
  {
    hide Folded, UrlOf;
    calls, totalCalls := map[], 0;
    NothingFolded();
    assert rows[..0] == [];
    for i := 0 to |rows|
      invariant Folded(calls, Accepted(rows[..i])) && totalCalls == |Accepted(rows[..i])|
    {
      ghost var before := Accepted(rows[..i]);
      assert rows[..i + 1][..i] == rows[..i];
      if rows[i].Undecodable? {
        continue;
      }
      var list := rows[i].list;
      assert list[..0] == [] && before + [] == before;
      for j := 0 to |list|
        invariant Folded(calls, before + Usable(list[..j])) && totalCalls == |before + Usable(list[..j])|
      {
        assert list[..j + 1][..j] == list[..j];
        if UrlOf(list[j]) == "" {
          continue;
        }
        assert before + Usable(list[..j + 1]) == before + Usable(list[..j]) + [list[j]];
        calls := Fold(calls, list[j], before + Usable(list[..j]));
        totalCalls := totalCalls + 1;
      }
      assert list[..|list|] == list;
    }
    assert rows[..|rows|] == rows;
  }

  lemma NothingFolded()
    ensures Folded(map[], [])
  {
  }

  // ----- The response -----

  /** What the handler reports of one accumulator. */
  function Report(c: CallStats): HttpCall {
    HttpCall(
      c.url, c.method_, c.callCount,
      if c.callCount > 0 then c.totalDuration / c.callCount as real else 0.0,
      if c.callCount > 0 && c.minDuration == SENTINEL then 0.0 else c.minDuration,
      c.maxDuration, c.errorCount,
      if c.callCount > 0 then c.errorCount as real / c.callCount as real * 100.0 else 0.0,
      c.sent, c.received)
  }

  /** `h` summarises the requests `g`. */
  ghost predicate Summarises(h: HttpCall, g: seq<Request>) {
    && g != [] && h.url == UrlOf(g[0]) && h.method_ == MethodOf(g[0])
    && h.callCount == |g| && h.errorCount == Sum(g, ErrorOf)
    && h.avgDuration * |g| as real == Total(g)
    && h.errorRate * |g| as real == Sum(g, ErrorOf) as real * 100.0
    && IsLongest(g, h.maxDuration)
    && ReportsMinimum(h.minDuration, g)
    && h.sent == Sum(g, SentBy) && h.received == Sum(g, ReceivedBy)
  }

  /** The shortest duration if it stays below the sentinel, and 0 otherwise. */
  ghost predicate ReportsMinimum(d: real, g: seq<Request>) {
    if d == 0.0 then forall r :: r in g && Duration(r) > 0.0 ==> Duration(r) >= SENTINEL
    else d < SENTINEL && IsShortest(g, d)
  }

  lemma ReportSummarises(c: CallStats, g: seq<Request>)
    requires g != [] && Tracks(c, g)
    ensures Summarises(Report(c), g)
  {
    hide Duration, IsLongest, UrlOf, MethodOf, Total, Sum;
    var n := |g| as real;
    assert c.totalDuration / n * n == c.totalDuration;
    assert c.errorCount as real / n * 100.0 * n == c.errorCount as real * 100.0;
  }

  function ReportKey(h: HttpCall): string { Key(h.method_, h.url) }

  ghost function Keys(calls: seq<HttpCall>): seq<string> {
    seq(|calls|, i requires 0 <= i < |calls| => ReportKey(calls[i]))
  }

  /** Exactly one record for each key that occurs, and each record summarises its own group. */
  ghost predicate OneRecordPerKey(calls: seq<HttpCall>, s: seq<Request>) {
    && (forall h :: h in calls ==> Summarises(h, Group(s, ReportKey(h))))
    && (forall r :: r in s ==> KeyOf(r) in Keys(calls))
    && Distinct(Keys(calls))
  }

  function ByCallsDescending(): (HttpCall, HttpCall) -> bool {
    (a: HttpCall, b: HttpCall) => a.callCount >= b.callCount
  }

  lemma {:induction false} GroupKeys(s: seq<Request>, k: string)
    ensures forall r :: r in Group(s, k) <==> r in s && KeyOf(r) == k
  {
    if s != [] {
      GroupKeys(s[..|s| - 1], k);
      assert s == s[..|s| - 1] + [s[|s| - 1]];
    }
  }

  /** A summary of a group stands under the group's key. */
  lemma SummaryKey(s: seq<Request>, k: string, h: HttpCall)
    requires Summarises(h, Group(s, k))
    ensures ReportKey(h) == k
  {
    hide Total, Sum, Duration, Group;
    GroupKeys(s, k);
    assert Group(s, k)[0] in Group(s, k);
  }

  /** The records in any order of the map's keys. */
  method Reports(calls: map<string, CallStats>, ghost s: seq<Request>) returns (out: seq<HttpCall>)
    requires Folded(calls, s)
    ensures OneRecordPerKey(out, s)
  {
    hide Summarises, Tracks, Group, Report, ReportKey, KeyOf;
    out := [];
    var todo := calls.Keys;
    while todo != {}
      invariant todo <= calls.Keys
      invariant forall h :: h in out ==> Summarises(h, Group(s, ReportKey(h)))
      invariant forall k :: k in Keys(out) <==> k in calls && k !in todo
      invariant Distinct(Keys(out))
    {
      var k :| k in todo;
      todo := todo - {k};
      var h := Report(calls[k]);
      ReportSummarises(calls[k], Group(s, k));
      SummaryKey(s, k, h);
      assert Keys(out + [h]) == Keys(out) + [k];
      out := out + [h];
    }
  }

  method ServeHTTPCalls(rows: seq<Row>) returns (calls: seq<HttpCall>, totalCalls: int)
    ensures totalCalls == |Accepted(rows)|
    ensures OneRecordPerKey(calls, Accepted(rows))
    ensures Sum(calls, CallsOf) == totalCalls
    ensures forall i, j :: 0 <= i < j < |calls| ==> calls[i].callCount >= calls[j].callCount
  {
    var stats;
    stats, totalCalls := FoldRows(rows);
    var unsorted := Reports(stats, Accepted(rows));
    calls := SortSlice(ByCallsDescending(), unsorted);
    ReorderKeepsRecords(unsorted, calls, Accepted(rows));
    CallsAddUp(calls, Accepted(rows));
  }

  /** Reordering the records keeps one record per key. */
  lemma ReorderKeepsRecords(a: seq<HttpCall>, b: seq<HttpCall>, s: seq<Request>)
    requires OneRecordPerKey(a, s) && multiset(a) == multiset(b)
    ensures OneRecordPerKey(b, s)
  {
    hide Summarises, Group, ReportKey, KeyOf;
    forall h ensures h in a <==> h in b { assert h in multiset(a) <==> h in multiset(b); }
    forall r | r in s ensures KeyOf(r) in Keys(b) {
      var i :| 0 <= i < |a| && Keys(a)[i] == KeyOf(r);
      assert a[i] in b;
      var j :| 0 <= j < |b| && b[j] == a[i];
      assert Keys(b)[j] == KeyOf(r);
    }
    forall i, j | 0 <= i < j < |a| ensures ReportKey(a[i]) != ReportKey(a[j]) {
      assert Keys(a)[i] != Keys(a)[j];
    }
    DistinctKeysPermuted(a, b, ReportKey);
    forall i, j | 0 <= i < j < |b| ensures Keys(b)[i] != Keys(b)[j] {
      assert ReportKey(b[i]) != ReportKey(b[j]);
    }
  }

  // ----- What the response means -----

  lemma {:induction false} GroupSize(s: seq<Request>, k: string)
    ensures |Group(s, k)| == KeySum(s, KeyOf, k, Unit<Request>)
  {
    hide KeyOf;
    if s != [] {
      var n := |s| - 1;
      GroupSize(s[..n], k);
      KeySumSnoc(s[..n], s[n], KeyOf, k, Unit<Request>);
      assert s == s[..n] + [s[n]];
    }
  }

  function CallsOf(h: HttpCall): int { h.callCount }

  /** The call counts of the records add up to the number of requests counted. */
  lemma CallsAddUp(calls: seq<HttpCall>, s: seq<Request>)
    requires OneRecordPerKey(calls, s)
    ensures Sum(calls, CallsOf) == |s|
  {
    hide Group, KeySum, Sum, KeyOf, ReportKey, Total, Duration, IsLongest, ReportsMinimum;
    forall i | 0 <= i < |calls| ensures CallsOf(calls[i]) == KeySum(s, KeyOf, Keys(calls)[i], Unit<Request>) {
      GroupSize(s, ReportKey(calls[i]));
      assert calls[i] in calls;
    }
    SumOfGroups(s, KeyOf, Unit<Request>, calls, ReportKey, CallsOf, Keys(calls));
    PartitionTotal(s, KeyOf, Keys(calls), Unit<Request>);
    SumOfUnits(s);
  }

  lemma {:induction false} ErrorBounds(g: seq<Request>)
    ensures 0 <= Sum(g, ErrorOf) <= |g|
  {
    if g != [] { ErrorBounds(g[1..]); }
  }

  lemma {:induction false} TotalBounds(g: seq<Request>, m: real)
    requires forall r :: r in g ==> Duration(r) <= m
    ensures 0.0 <= Total(g) <= m * |g| as real
  {
    hide Duration;
    if g != [] {
      var n := |g| - 1;
      assert g[n] in g;
      TotalBounds(g[..n], m);
      assert m * |g| as real == m * n as real + m;
    }
  }

  /** Errors never exceed calls and the average never exceeds the maximum. */
  lemma RecordBounds(h: HttpCall, g: seq<Request>)
    requires Summarises(h, g)
    ensures 0 <= h.errorCount <= h.callCount && 0.0 <= h.errorRate <= 100.0
    ensures 0.0 <= h.avgDuration <= h.maxDuration
  {
    hide Total, Sum, Duration, ReportsMinimum;
    ErrorBounds(g);
    TotalBounds(g, h.maxDuration);
    QuotientBounds(h.avgDuration, Total(g), h.maxDuration, |g|);
    QuotientBounds(h.errorRate, Sum(g, ErrorOf) as real * 100.0, 100.0, |g|);
  }

  lemma QuotientBounds(x: real, total: real, m: real, n: nat)
    requires n > 0 && x * n as real == total && 0.0 <= total <= m * n as real
    ensures 0.0 <= x <= m
  {
    DividesBound(x, m, n as real);
  }

  lemma DividesBound(x: real, m: real, n: real)
    requires n > 0.0 && 0.0 <= x * n <= m * n
    ensures 0.0 <= x <= m
  {
    if x < 0.0 { ProductSign(x, n); }
    assert (m - x) * n == m * n - x * n;
    if m - x < 0.0 { ProductSign(m - x, n); }
  }

  lemma ProductSign(x: real, n: real)
    requires n > 0.0 && x < 0.0
    ensures x * n < 0.0
  {
  }

  /**
   * The reported minimum is the shortest duration exactly when that duration lies below the
   * sentinel; otherwise the record says 0.
   */
  lemma MinimumIsExact(h: HttpCall, g: seq<Request>, d: real)
    requires Summarises(h, g) && IsShortest(g, d)
    ensures h.minDuration == d <==> d < SENTINEL
    ensures h.minDuration != d <==> h.minDuration == 0.0
  {
    hide Duration, Total, Sum;
    var r :| r in g && Duration(r) == d;
    if h.minDuration != 0.0 {
      var q :| q in g && Duration(q) == h.minDuration;
    }
  }

  /**
   * What a single request adds, in its own fields: blank names and methods have fallbacks; it failed when
   * its status is at least 400 or it carries an error; its duration is in milliseconds, or in seconds under
   * the other name; and its bytes come from the first of two fields that is positive.
   */
  lemma OneRequest(h: HttpCall, r: Request)
    requires Summarises(h, [r])
    ensures h.callCount == 1 && h.url == (if r.url != "" then r.url else r.urlAlt)
    ensures h.method_ == if r.method_ != "" then r.method_ else "GET"
    ensures h.errorCount == 1 <==>
      r.status >= 400 || (r.status == 0 && r.statusAlt >= 400) || r.error != ""
    ensures h.errorCount == 0 || h.errorCount == 1
    ensures var d := if r.durationMs > 0.0 then r.durationMs else if r.duration > 0.0 then 1000.0 * r.duration else 0.0;
            h.avgDuration == h.maxDuration == d && h.minDuration == if d < 999999.0 then d else 0.0
    ensures h.sent == if r.bytesSent > 0.0 then r.bytesSent.Floor
                      else if r.requestSize > 0.0 then r.requestSize.Floor else 0
    ensures h.received == if r.bytesReceived > 0.0 then r.bytesReceived.Floor
                          else if r.responseSize > 0.0 then r.responseSize.Floor else 0
  {
    var g := [r];
    assert g[..0] == [] && r in g;
    assert Total(g) == Duration(r);
    SumOfOne(r, ErrorOf);
    SumOfOne(r, SentBy);
    SumOfOne(r, ReceivedBy);
    hide Sum, Total;
    assert h.avgDuration * 1.0 == Duration(r);
  }

  lemma {:induction false} TotalAppend(a: seq<Request>, b: seq<Request>)
    ensures Total(a + b) == Total(a) + Total(b)
    decreases |b|
  {
    hide Duration;
    if b == [] {
      assert a + b == a;
    } else {
      TotalAppend(a, b[..|b| - 1]);
      assert (a + b)[..|a + b| - 1] == a + b[..|b| - 1];
    }
  }

  /**
   * The record of two lists of requests under one key is put together from theirs: counts and bytes add up,
   * the averages weigh by their calls, and the extremes are the greater and the smaller that is not 0.
   */
  lemma RecordsMerge(h: HttpCall, a: seq<Request>, x: HttpCall, b: seq<Request>, y: HttpCall)
    requires Summarises(h, a + b) && Summarises(x, a) && Summarises(y, b)
    ensures h.url == x.url && h.method_ == x.method_
    ensures h.callCount == x.callCount + y.callCount && h.errorCount == x.errorCount + y.errorCount
    ensures h.sent == x.sent + y.sent && h.received == x.received + y.received
    ensures h.avgDuration * h.callCount as real
         == x.avgDuration * x.callCount as real + y.avgDuration * y.callCount as real
    ensures h.maxDuration == if x.maxDuration > y.maxDuration then x.maxDuration else y.maxDuration
    ensures h.minDuration == if x.minDuration == 0.0 then y.minDuration
                             else if y.minDuration == 0.0 || x.minDuration < y.minDuration then x.minDuration
                             else y.minDuration
  {
    SumAppend(a, b, ErrorOf);
    SumAppend(a, b, SentBy);
    SumAppend(a, b, ReceivedBy);
    TotalAppend(a, b);
    hide Duration, Total, Sum, Failed, SentBy, ReceivedBy;
    assert forall r :: r in a + b <==> r in a || r in b;
  }

  lemma UsableNext(list: seq<Request>, r: Request)
    ensures Usable(list + [r]) == Usable(list) + if r.url != "" || r.urlAlt != "" then [r] else []
  {
    assert (list + [r])[..|list|] == list;
  }

  lemma {:induction false} UsableAppend(a: seq<Request>, b: seq<Request>)
    ensures Usable(a + b) == Usable(a) + Usable(b)
    decreases |b|
  {
    hide Usable;
    if b == [] {
      assert a + b == a;
      UsableIsEmpty();
    } else {
      var before, r := b[..|b| - 1], b[|b| - 1];
      assert b == before + [r] && a + b == (a + before) + [r];
      UsableAppend(a, before);
      UsableNext(before, r);
      UsableNext(a + before, r);
    }
  }

  lemma UsableIsEmpty()
    ensures Usable([]) == []
  {
  }

  /** A request counts, in its place, exactly when it names a URL. */
  lemma RequestCounts(list: seq<Request>, r: Request, rest: seq<Request>)
    ensures Usable(list + [r] + rest)
         == Usable(list) + (if r.url != "" || r.urlAlt != "" then [r] else []) + Usable(rest)
  {
    hide Usable;
    UsableNext(list, r);
    UsableAppend(list + [r], rest);
  }

  lemma AcceptedNext(rows: seq<Row>, row: Row)
    ensures Accepted(rows + [row]) == Accepted(rows) + if row.Requests? then Usable(row.list) else []
    ensures Accepted([]) == []
  {
    hide Usable;
    assert (rows + [row])[..|rows|] == rows;
  }

  lemma {:induction false} AcceptedAppend(a: seq<Row>, b: seq<Row>)
    ensures Accepted(a + b) == Accepted(a) + Accepted(b)
    decreases |b|
  {
    hide Accepted, Usable;
    if b == [] {
      assert a + b == a;
      AcceptedNext([], Undecodable);
    } else {
      var before, row := b[..|b| - 1], b[|b| - 1];
      assert b == before + [row] && a + b == (a + before) + [row];
      AcceptedAppend(a, before);
      AcceptedNext(before, row);
      AcceptedNext(a + before, row);
    }
  }

  /** A row counts, in its place, with its requests that count, and not at all when it does not decode. */
  lemma RowCounts(rows: seq<Row>, row: Row, later: seq<Row>)
    ensures Accepted(rows + [row] + later)
         == Accepted(rows) + (if row.Requests? then Usable(row.list) else []) + Accepted(later)
  {
    hide Accepted, Usable;
    AcceptedNext(rows, row);
    AcceptedAppend(rows + [row], later);
  }

  /** Two requests, the shorter of 1,000,000 ms: the record says the shortest took no time. */
  lemma LongCallsReportZero(h: HttpCall, fast: Request, slow: Request)
    requires Summarises(h, [fast, slow]) && Duration(fast) == 1000000.0 && Duration(slow) == 2000000.0
    ensures IsShortest([fast, slow], 1000000.0) && h.minDuration == 0.0 && h.maxDuration == 2000000.0
  {
    hide Duration, Total, Sum;
    var g := [fast, slow];
    assert fast in g && slow in g;
    MinimumIsExact(h, g, 1000000.0);
  }

  /**
   * The combined key separates two methods, whatever the URLs, exactly when neither method
   * followed by a space begins the other.
   */
  lemma MethodsKeptApart(m1: string, m2: string)
    requires m1 != m2
    ensures (forall u1, u2 :: u1 != "" && u2 != "" ==> Key(m1, u1) != Key(m2, u2))
       <==> !(m1 + " " <= m2) && !(m2 + " " <= m1)
  {
    if m1 + " " <= m2 { Collision(m1, m2); }
    if m2 + " " <= m1 { Collision(m2, m1); }
    forall u1, u2 | u1 != "" && u2 != "" && Key(m1, u1) == Key(m2, u2)
      ensures m1 + " " <= m2 || m2 + " " <= m1
    {
      var k := Key(m1, u1);
      assert k[..|m1|] == m1 && k[..|m2|] == m2;
      if |m1| < |m2| {
        assert k[..|m1| + 1] == m1 + " ";
      } else if |m2| < |m1| {
        assert k[..|m2| + 1] == m2 + " ";
      }
    }
  }

  lemma Collision(m1: string, m2: string)
    requires m1 + " " <= m2
    ensures exists u1, u2 :: u1 != "" && u2 != "" && Key(m1, u1) == Key(m2, u2)
  {
    var rest := m2[|m1| + 1..];
    assert m2 == m1 + " " + rest;
    assert Key(m1, rest + " /") == Key(m2, "/");
  }
}

/**
 * Turning dependency rows into external calls, and the string key those calls are merged under.
 */
module DepKeys {
  import opened Prelude
  import opened Strings

  /** A row of one of the four external-dependency queries. Durations are exact integers. */
  datatype DepRow =
    | DbRow(service: string, system: string, host: string, port: string, calls: nat, totalDur: int, errors: nat)
    | HttpRow(service: string, url: string, reqType: string, calls: nat, totalDur: int, errors: nat)
    | RedisRow(service: string, host: string, port: string, calls: nat, totalDur: int, errors: nat)
    | CacheRow(service: string, system: string, host: string, calls: nat, totalDur: int, errors: nat)

  /** The arguments of one `add`, and equally a merged aggregate. */
  datatype Call = Call(
    from: string, target: string, depType: string, host: string, port: string, scheme: string,
    calls: nat, totalDur: int, errors: nat)

  const DEP_TYPES: set<string> := {"database", "http", "curl", "redis", "cache"}

  predicate InvalidServiceName(s: string) {
    ToLower(TrimSpace(s)) in {"", "unknown", "null", "undefined", "none"}
  }

  /** The placeholder words, in lower case, and the empty one. */
  const PLACEHOLDERS: set<string> := {"", "unknown", "null", "undefined", "none"}

  /** A name is invalid exactly when it is one of five words in some case, with any white space around it. */
  lemma InvalidExactly(s: string)
    ensures InvalidServiceName(s) <==>
      exists pre, core, post :: Padded(s, pre, core, post) && ToLower(core) in PLACEHOLDERS
  {
    var a, b := TrimSplits(s);
    assert Padded(s, a, TrimSpace(s), b);
    forall pre, core, post | Padded(s, pre, core, post) ensures core == TrimSpace(s) { TrimOf(pre, core, post); }
  }

  /** `core` stands in `s` between white space, and has none at its own ends. */
  ghost predicate Padded(s: string, pre: string, core: string, post: string) {
    && s == pre + core + post && AllSpace(pre) && AllSpace(post)
    && (core != "" ==> !IsSpace(core[0]) && !IsSpace(core[|core| - 1]))
  }

  function DefaultDBPort(system: string): string {
    match ToLower(system)
    case "mysql" => "3306"
    case "mariadb" => "3306"
    case "postgres" => "5432"
    case "postgresql" => "5432"
    case "mongodb" => "27017"
    case "mongo" => "27017"
    case "mssql" => "1433"
    case "sqlserver" => "1433"
    case "clickhouse" => "9000"
    case _ => ""
  }

  function TrimPrefix(s: string, p: string): string { if p <= s then s[|p|..] else s }

  /** `strings.Split(s, "/")[0]`. */
  function BeforeSlash(s: string): (r: string)
    ensures r <= s && '/' !in r
  {
    var i := Index(s, "/");
    var r := if i == -1 then s else s[..i];
    assert forall j :: 0 <= j < |r| ==> (OccursAt(s, "/", j) <==> s[j] == '/') by {
      forall j | 0 <= j < |r| ensures OccursAt(s, "/", j) <==> s[j] == '/' { assert s[j..j + 1] == [s[j]]; }
    }
    r
  }

  function BaseURL(url: string): string {
    if "http://" <= url || "https://" <= url then
      (if "https://" <= url then "https" else "http")
      + "://" + BeforeSlash(TrimPrefix(TrimPrefix(url, "https://"), "http://"))
    else url
  }

  /** The last index of `c` in `s`, or -1. */
  function LastIndex(s: string, c: char): (r: int)
    ensures -1 <= r < |s|
    ensures r >= 0 ==> s[r] == c
    ensures forall j :: r < j < |s| ==> s[j] != c
  {
    if s == "" then -1 else if s[|s| - 1] == c then |s| - 1 else LastIndex(s[..|s| - 1], c)
  }

  datatype Target = Target(host: string, port: string, scheme: string)

  function ParseHTTPTarget(rawURL: string): Target {
    var scheme := if "https://" <= rawURL then "https" else "http";
    var rest := if "https://" <= rawURL then rawURL[8..] else if "http://" <= rawURL then rawURL[7..] else rawURL;
    ParseHostPort(BeforeSlash(rest), scheme)
  }

  function ParseHostPort(hostPort: string, scheme: string): Target {
    var i := LastIndex(hostPort, ':');
    if i > 0 && ']' !in hostPort[i + 1..] then Target(hostPort[..i], hostPort[i + 1..], scheme)
    else Target(hostPort, if scheme == "https" then "443" else "80", scheme)
  }

  lemma BeforeSlashOf(s: string, tail: string)
    requires '/' !in s && (tail == "" || tail[0] == '/')
    ensures BeforeSlash(s + tail) == s
  {
    var all := s + tail;
    assert forall j :: 0 <= j < |s| ==> all[j] == s[j] && all[j] in s;
    if tail != "" {
      assert all[|s|] == '/';
      assert OccursAt(all, "/", |s|) by { assert all[|s|..|s| + 1] == [all[|s|]]; }
    }
    assert forall j :: OccursAt(all, "/", j) ==> all[j..j + 1][0] == all[j] == '/';
  }

  lemma LastIndexOf(host: string, c: char, port: string)
    requires c !in port
    ensures LastIndex(host + [c] + port, c) == |host|
  {
    var s := host + [c] + port;
    assert s[|host|] == c;
    assert s[|host| + 1..] == port;
    LastIndexBefore(s, c, |host|);
  }

  lemma LastIndexBefore(s: string, c: char, i: nat)
    requires i < |s| && s[i] == c && c !in s[i + 1..]
    ensures LastIndex(s, c) == i
  {
    assert forall j :: i < j < |s| ==> s[j] == s[i + 1..][j - i - 1];
  }

  /** An explicit host, port and scheme read back, whatever path follows; brackets may enclose the host. */
  lemma ParseRoundTrip(scheme: string, host: string, port: string, path: string)
    requires scheme in {"http", "https"}
    requires host != "" && '/' !in host
    requires ':' !in port && '/' !in port && ']' !in port
    requires path == "" || path[0] == '/'
    ensures ParseHTTPTarget(scheme + "://" + host + ":" + port + path) == Target(host, port, scheme)
  {
    hide LastIndex, BeforeSlash, ParseHTTPTarget, Index;
    var hostPort := host + [':'] + port;
    var url := scheme + "://" + host + ":" + port + path;
    assert url == (scheme + "://") + (hostPort + path);
    ParseAfterScheme(scheme, url, hostPort, path);
    LastIndexOf(host, ':', port);
    assert hostPort[..|host|] == host && hostPort[|host| + 1..] == port;
  }

  lemma ParseAfterScheme(scheme: string, url: string, hostPort: string, path: string)
    requires scheme in {"http", "https"}
    requires url == (scheme + "://") + (hostPort + path)
    requires '/' !in hostPort && (path == "" || path[0] == '/')
    ensures ParseHTTPTarget(url) == ParseHostPort(hostPort, scheme)
  {
    assert url[|scheme| + 3..] == hostPort + path;
    SchemePrefix(scheme, hostPort + path);
    BeforeSlashOf(hostPort, path);
  }

  lemma SchemePrefix(scheme: string, rest: string)
    requires scheme in {"http", "https"}
    ensures "https://" <= (scheme + "://") + rest <==> scheme == "https"
    ensures scheme == "http" ==> "http://" <= (scheme + "://") + rest
  {
    var url := (scheme + "://") + rest;
    if scheme == "http" { assert url[4] == ':' && "https://"[4] == 's'; }
  }

  /** Without a port the scheme's own port is used. */
  lemma ParseDefaultPort(scheme: string, host: string, path: string)
    requires scheme in {"http", "https"}
    requires ':' !in host && '/' !in host
    requires path == "" || path[0] == '/'
    ensures ParseHTTPTarget(scheme + "://" + host + path)
         == Target(host, if scheme == "https" then "443" else "80", scheme)
  {
    var url := scheme + "://" + host + path;
    assert url == (scheme + "://") + (host + path);
    ParseAfterScheme(scheme, url, host, path);
  }

  /** The call a row stands for; `None` where the loop skips the row. */
  function Normalise(row: DepRow): (r: Option<Call>)
    ensures r.Some? ==> r.value.depType in DEP_TYPES
  {
    match row
    case DbRow(service, sys, rawHost, rawPort, calls, dur, errors) =>
      if InvalidServiceName(sys) then None
      else
        var host := if InvalidServiceName(rawHost) then "" else rawHost;
        var port := if rawPort == "" then DefaultDBPort(sys) else rawPort;
        var target := if host != "" then sys + "://" + host else "db:" + sys;
        Some(Call(service, target, "database", host, port, sys, calls, dur, errors))
    case HttpRow(service, url, reqType, calls, dur, errors) =>
      if url == "" || InvalidServiceName(url) then None
      else if url == service || service + ":" <= url || service + "/" <= url then None
      else if InvalidServiceName(BaseURL(url)) then None
      else
        var t := ParseHTTPTarget(BaseURL(url));
        Some(Call(service, BaseURL(url), if reqType == "curl" then "curl" else "http", t.host, t.port, t.scheme,
                  calls, dur, errors))
    case RedisRow(service, rawHost, rawPort, calls, dur, errors) =>
      var host := if InvalidServiceName(rawHost) then "redis" else rawHost;
      var port := if rawPort == "" then "6379" else rawPort;
      Some(Call(service, "redis://" + host, "redis", host, port, "redis", calls, dur, errors))
    case CacheRow(service, sys, host, calls, dur, errors) =>
      var target := if host != "" && !InvalidServiceName(host) then "cache://" + host else "cache:" + sys;
      Some(Call(service, target, "cache", host, "", sys, calls, dur, errors))
  }

  lemma {:induction false} TrimLeftKeeps(s: string, x: char)
    requires x in s && !IsSpace(x)
    ensures x in TrimLeft(s)
  {
    if IsSpace(s[0]) {
      assert s == [s[0]] + s[1..];
      TrimLeftKeeps(s[1..], x);
    }
  }

  lemma {:induction false} TrimRightKeeps(s: string, x: char)
    requires x in s && !IsSpace(x)
    ensures x in TrimRight(s)
  {
    if IsSpace(s[|s| - 1]) {
      assert s == s[..|s| - 1] + [s[|s| - 1]];
      TrimRightKeeps(s[..|s| - 1], x);
    }
  }

  /** A name holding a colon is never one of the placeholder names. */
  lemma ColonIsValid(s: string)
    requires ':' in s
    ensures !InvalidServiceName(s)
  {
    TrimLeftKeeps(s, ':');
    TrimRightKeeps(TrimLeft(s), ':');
    LowerKeepsColon(TrimSpace(s));
  }

  lemma LowerKeepsColon(t: string)
    requires ':' in t
    ensures ToLower(t) !in {"", "unknown", "null", "undefined", "none"}
  {
    var i :| 0 <= i < |t| && t[i] == ':';
    var l := ToLower(t);
    hide ToLower;
    assert l[i] == ':' && i < |l|;
    assert ':' in l && ':' !in "unknown" && ':' !in "null" && ':' !in "undefined" && ':' !in "none";
  }

  /** `add` ignores calls with an invalid end or no traffic. */
  predicate Accepted(c: Call) {
    !InvalidServiceName(c.from) && !InvalidServiceName(c.target) && c.calls != 0
  }

  function KeyOf(c: Call): string {
    c.from + "->" + c.target + "|" + c.depType
  }

  predicate SameTriple(a: Call, b: Call) {
    a.from == b.from && a.target == b.target && a.depType == b.depType
  }

  /** One caller's name continues the other's with an arrow. */
  predicate Continues(f: string, g: string) { f + "->" <= g }

  lemma SplitAtLastBar(t1: string, d1: string, t2: string, d2: string)
    requires '|' !in d1 && '|' !in d2
    requires t1 + "|" + d1 == t2 + "|" + d2
    ensures t1 == t2 && d1 == d2
  {
    var s := t1 + "|" + d1;
    assert s == t1 + ['|'] + d1 && s == t2 + ['|'] + d2;
    LastIndexOf(t1, '|', d1);
    LastIndexOf(t2, '|', d2);
    assert t1 == s[..|t1|] && t2 == s[..|t2|];
    assert d1 == s[|t1| + 1..] && d2 == s[|t2| + 1..];
  }

  lemma SplitAtArrow(f: string, x: string, g: string, y: string)
    requires f + "->" + x == g + "->" + y && |f| <= |g|
    ensures Continues(f, g) || f == g
  {
    var s := f + "->" + x;
    assert s[..|f|] == f && s[..|g|] == g;
    assert s[|f|] == '-' && s[|f| + 1] == '>';
    assert s == g + "->" + y;
    assert s[|g|] == '-';
    if |f| + 2 <= |g| {
      assert s[..|f| + 2] == f + "->";
      assert f + "->" == g[..|f| + 2];
    }
  }

  /** Callers whose names do not continue each other never share a key by accident. */
  lemma KeyInjective(a: Call, b: Call)
    requires a.depType in DEP_TYPES && b.depType in DEP_TYPES
    requires !Continues(a.from, b.from) && !Continues(b.from, a.from)
    requires KeyOf(a) == KeyOf(b)
    ensures SameTriple(a, b)
  {
    var ra, rb := a.target + "|" + a.depType, b.target + "|" + b.depType;
    KeyParts(a);
    KeyParts(b);
    hide KeyOf, Continues;
    SameArrowSplit(a.from, ra, b.from, rb);
    SplitAtLastBar(a.target, a.depType, b.target, b.depType);
  }

  lemma KeyParts(c: Call)
    requires c.depType in DEP_TYPES
    ensures KeyOf(c) == c.from + "->" + (c.target + "|" + c.depType)
    ensures '|' !in c.depType
  {
  }

  lemma SameArrowSplit(f: string, x: string, g: string, y: string)
    requires f + "->" + x == g + "->" + y && !Continues(f, g) && !Continues(g, f)
    ensures f == g && x == y
  {
    if |f| <= |g| { SplitAtArrow(f, x, g, y); } else { SplitAtArrow(g, y, f, x); }
    assert x == (f + "->" + x)[|f| + 2..] && y == (g + "->" + y)[|g| + 2..];
  }

  /** No name in the set continues another with an arrow: what makes merging by key safe. */
  ghost predicate ArrowSafe(names: set<string>) {
    forall f, g :: f in names && g in names ==> !Continues(f, g)
  }

  // ----- What a row becomes -----

  /** A row counts when it has calls, a valid caller, and a valid system or a valid URL that is not the caller's own. */
  predicate Counted(row: DepRow) {
    && row.calls > 0
    && !InvalidServiceName(row.service)
    && match row
       case DbRow(_, system, _, _, _, _, _) => !InvalidServiceName(system)
       case HttpRow(service, url, _, _, _, _) =>
         !InvalidServiceName(url) && url != service && !(service + ":" <= url) && !(service + "/" <= url)
       case _ => true
  }

  function RowCalls(row: DepRow): int { row.calls }

  function RowErrors(row: DepRow): int { row.errors }

  function RowDuration(row: DepRow): int { row.totalDur }

  /** The name of the node that a row's calls go to. */
  function RowTarget(row: DepRow): string {
    match row
    case DbRow(_, system, host, _, _, _, _) =>
      if InvalidServiceName(host) then "db:" + system else system + "://" + host
    case HttpRow(_, url, _, _, _, _) => BaseURL(url)
    case RedisRow(_, host, _, _, _, _) => "redis://" + if InvalidServiceName(host) then "redis" else host
    case CacheRow(_, system, host, _, _, _) =>
      if InvalidServiceName(host) then "cache:" + system else "cache://" + host
  }

  function RowType(row: DepRow): string {
    match row
    case DbRow(_, _, _, _, _, _, _) => "database"
    case HttpRow(_, _, reqType, _, _, _) => if reqType == "curl" then "curl" else "http"
    case RedisRow(_, _, _, _, _, _) => "redis"
    case CacheRow(_, _, _, _, _, _) => "cache"
  }

  /** The address an edge shows for a row. */
  function RowAddress(row: DepRow): Target {
    match row
    case DbRow(_, system, host, port, _, _, _) =>
      Target(if InvalidServiceName(host) then "" else host, if port == "" then DefaultDBPort(system) else port, system)
    case HttpRow(_, url, _, _, _, _) => ParseHTTPTarget(BaseURL(url))
    case RedisRow(_, host, port, _, _, _) =>
      Target(if InvalidServiceName(host) then "redis" else host, if port == "" then "6379" else port, "redis")
    case CacheRow(_, system, host, _, _, _) => Target(host, "", system)
  }

  /** The key a row is merged under. */
  function RowKey(row: DepRow): string { row.service + "->" + RowTarget(row) + "|" + RowType(row) }

  /** A row's call has the row's caller and figures, and the target and type of its kind. */
  lemma NormaliseFields(row: DepRow, c: Call)
    requires Normalise(row) == Some(c)
    ensures c.from == row.service && c.calls == row.calls && c.errors == row.errors && c.totalDur == row.totalDur
    ensures c.target == RowTarget(row) && c.depType == RowType(row)
    ensures Target(c.host, c.port, c.scheme) == RowAddress(row)
  {
    hide ParseHTTPTarget, BaseURL, DefaultDBPort, InvalidServiceName;
    EmptyIsInvalid();
  }

  /**
   * Normalising and `add` together keep exactly the rows that count: their further checks, of the base
   * URL and of the target, never fail.
   */
  lemma CountedExactly(row: DepRow)
    ensures Normalise(row).Some? && Accepted(Normalise(row).value) <==> Counted(row)
  {
    EmptyIsInvalid();
    TargetIsValid(row);
    hide ParseHTTPTarget, BaseURL, DefaultDBPort, InvalidServiceName, BeforeSlash;
    if row.HttpRow? {
      HttpIsValid(row.url);
    }
    if Normalise(row).Some? { NormaliseFields(row, Normalise(row).value); }
  }

  lemma HttpIsValid(url: string)
    ensures InvalidServiceName(BaseURL(url)) ==> InvalidServiceName(url) && BaseURL(url) == url
  {
    hide InvalidServiceName, BeforeSlash;
    if "http://" <= url || "https://" <= url {
      assert "://"[0] == ':' && ':' in "://";
      ColonIsValid(BaseURL(url));
    }
  }

  lemma TargetIsValid(row: DepRow)
    ensures !row.HttpRow? ==> !InvalidServiceName(RowTarget(row))
  {
    hide InvalidServiceName;
    if !row.HttpRow? { ColonIsValid(RowTarget(row)); }
  }

  /** Of a URL with a scheme the base URL keeps scheme, host and port. */
  lemma BaseOfURL(scheme: string, hostPort: string, path: string)
    requires scheme in {"http", "https"}
    requires '/' !in hostPort && (scheme == "http" || hostPort != "http:") && (path == "" || path[0] == '/')
    ensures BaseURL(scheme + "://" + hostPort + path) == scheme + "://" + hostPort
  {
    hide BeforeSlash;
    var url, rest := scheme + "://" + hostPort + path, hostPort + path;
    assert url == (scheme + "://") + rest && url[|scheme| + 3..] == rest;
    SchemePrefix(scheme, rest);
    if scheme == "https" && "http://" <= rest { NestedScheme(hostPort, path, rest); }
    BeforeSlashOf(hostPort, path);
  }

  lemma NestedScheme(hostPort: string, path: string, rest: string)
    requires '/' !in hostPort && (path == "" || path[0] == '/')
    requires rest == hostPort + path && "http://" <= rest
    ensures hostPort == "http:"
  {
    assert rest[5] == '/' && forall i :: 0 <= i < 5 ==> rest[i] == "http:"[i];
    assert forall i :: 0 <= i < |hostPort| ==> rest[i] == hostPort[i] && hostPort[i] in hostPort;
    assert |hostPort| <= 5;
    assert path != "" ==> rest[|hostPort|] == '/';
  }

  /** Some dependency row gives the call, and `add` accepts it. */
  ghost predicate Arises(c: Call) {
    exists row :: Normalise(row) == Some(c) && Accepted(c)
  }

  ghost predicate FromOneOf(names: set<string>, c: Call) { c.from in names && Arises(c) }

  function ValidNames(names: set<string>): set<string> {
    set n | n in names && !InvalidServiceName(n)
  }

  /** Merging by key keeps different (from, target, type) triples of these callers apart. */
  ghost predicate KeysSeparate(names: set<string>) {
    forall a: Call, b: Call :: FromOneOf(names, a) && FromOneOf(names, b) && KeyOf(a) == KeyOf(b) ==> SameTriple(a, b)
  }

  /**
   * Over all calls that rows can give, the key keeps the triples of a set of callers apart exactly when
   * the valid names among them are arrow-safe.
   */
  lemma KeysSeparateExactly(names: set<string>)
    ensures KeysSeparate(names) <==> ArrowSafe(ValidNames(names))
  {
    hide Normalise, InvalidServiceName, KeyOf;
    if ArrowSafe(ValidNames(names)) {
      forall a: Call, b: Call | FromOneOf(names, a) && FromOneOf(names, b) && KeyOf(a) == KeyOf(b)
        ensures SameTriple(a, b)
      {
        KeyInjective(a, b);
      }
    } else {
      var f, g :| f in ValidNames(names) && g in ValidNames(names) && Continues(f, g);
      var r, s, a, b := CollidingRows(f, g);
      assert FromOneOf(names, a) && FromOneOf(names, b) && !SameTriple(a, b);
    }
  }

  /** Two database rows of these callers that are accepted, share a key and have different ends. */
  lemma CollidingRows(f: string, g: string) returns (r: DepRow, s: DepRow, a: Call, b: Call)
    requires Continues(f, g) && !InvalidServiceName(f) && !InvalidServiceName(g)
    ensures Normalise(r) == Some(a) && Normalise(s) == Some(b) && Accepted(a) && Accepted(b)
    ensures a.from == f && b.from == g && KeyOf(a) == KeyOf(b) && !SameTriple(a, b)
  {
    var rest, pg, h := g[|f| + 2..], ":pg", ":h";
    var system, target := rest + "->" + pg, pg + "://" + h;
    assert g == f + "->" + rest;
    assert system + "://" + h == rest + "->" + target;
    assert pg[0] == ':' && h[0] == ':' && system[|rest| + 2] == ':' && target[0] == ':';
    hide InvalidServiceName, Normalise, KeyOf;
    r, a := DatabaseCall(f, system, h);
    s, b := DatabaseCall(g, pg, h);
    SharedKey(f, rest, target, a, b);
  }

  /** A database row with a known host, one call and no errors. */
  lemma DatabaseCall(service: string, system: string, host: string) returns (r: DepRow, c: Call)
    requires !InvalidServiceName(service) && ':' in system && ':' in host
    ensures Normalise(r) == Some(c) && Accepted(c)
    ensures c.from == service && c.target == system + "://" + host && c.depType == "database"
  {
    ColonIsValid(system);
    ColonIsValid(host);
    ColonIsValid(system + "://" + host);
    hide InvalidServiceName, DefaultDBPort;
    EmptyIsInvalid();
    r := DbRow(service, system, host, "1", 1, 0, 0);
    c := Call(service, system + "://" + host, "database", host, "1", system, 1, 0, 0);
  }

  lemma EmptyIsInvalid()
    ensures InvalidServiceName("")
  {
  }

  lemma SharedKey(f: string, rest: string, target: string, a: Call, b: Call)
    requires a.from == f && a.target == rest + "->" + target && b.from == f + "->" + rest && b.target == target
    requires a.depType == b.depType
    ensures KeyOf(a) == KeyOf(b) && !SameTriple(a, b)
  {
    assert KeyOf(a) == f + "->" + (rest + "->" + target) + "|" + a.depType;
    assert KeyOf(b) == (f + "->" + rest) + "->" + target + "|" + a.depType;
    assert f + "->" + (rest + "->" + target) == (f + "->" + rest) + "->" + target;
    assert |b.from| > |f|;
  }

  /** In particular when no caller's name contains an arrow. */
  lemma NoArrowIsSafe(names: set<string>)
    requires forall f :: f in names ==> !Contains(f, "->")
    ensures ArrowSafe(names)
  {
    forall f, g | f in names && g in names ensures !Continues(f, g) {
      if Continues(f, g) {
        assert g[|f|..|f| + 2] == "->";
        ContainsWhere(g, "->", |f|);
      }
    }
  }
}

/** Parsing label matchers: `name=~regex`, `name!:value` and `name:value`. */
module Matchers {
  import opened Prelude
  import opened Strings

  datatype LabelMatcher = LabelMatcher(name: string, value: string, negate: bool, regex: bool)

  /** `strings.Cut` around the first occurrence of `sep`. */
  function Cut(s: string, sep: string): (r: (string, string))
    requires Contains(s, sep)
    ensures r.0 + sep + r.1 == s
  {
    var i := Index(s, sep);
    assert s[..i] + s[i..i + |sep|] + s[i + |sep|..] == s;
    (s[..i], s[i + |sep|..])
  }

  /** The separator that decides how a trimmed input is read; `=~` is looked for first, then `!:`, then `:`. */
  function Separator(s: string): Option<string> {
    if Contains(s, "=~") then Some("=~")
    else if Contains(s, "!:") then Some("!:")
    else if Contains(s, ":") then Some(":")
    else None
  }

  /** A single non-blank input, already trimmed. */
  function ParseOne(s: string): (r: Result<LabelMatcher>)
    ensures r.Ok? <==> Separator(s).Some? && Cut(s, Separator(s).value).0 != ""
  {
    match Separator(s)
    case None => Err("matcher must be name:value, name!:value or name=~regex")
    case Some(sep) =>
      var (name, value) := Cut(s, sep);
      if name == "" then Err("matcher has an empty label name")
      else Ok(LabelMatcher(name, value, sep == "!:", sep == "=~"))
  }

  /** The non-blank inputs, trimmed, in order. */
  function NonBlank(raw: seq<string>): seq<string> {
    if raw == [] then []
    else NonBlank(raw[..|raw| - 1]) + if TrimSpace(raw[|raw| - 1]) == "" then [] else [TrimSpace(raw[|raw| - 1])]
  }

  method ParseLabelMatchers(raw: seq<string>) returns (r: Result<seq<LabelMatcher>>)
    ensures r.Ok? <==> forall s :: s in NonBlank(raw) ==> ParseOne(s).Ok?
    ensures r.Ok? ==> |r.value| == |NonBlank(raw)|
    ensures r.Ok? ==> forall i :: 0 <= i < |r.value| ==> ParseOne(NonBlank(raw)[i]) == Ok(r.value[i])
  {
    hide TrimSpace, ParseOne, NonBlank, Contains, Cut;
    var out := [];
    NonBlankNone(raw);
    for i := 0 to |raw|
      invariant |out| == |NonBlank(raw[..i])|
      invariant forall k :: 0 <= k < |out| ==> ParseOne(NonBlank(raw[..i])[k]) == Ok(out[k])
    {
      NonBlankNext(raw, i);
      var s := TrimSpace(raw[i]);
      if s == "" {
        continue;
      }
      var m;
      if Contains(s, "=~") {
        var (name, value) := Cut(s, "=~");
        if name == "" {
          Rejected(raw, i, s);
          return Err("matcher has an empty label name");
        }
        m := LabelMatcher(name, value, false, true);
      } else if Contains(s, "!:") {
        var (name, value) := Cut(s, "!:");
        if name == "" {
          Rejected(raw, i, s);
          return Err("matcher has an empty label name");
        }
        m := LabelMatcher(name, value, true, false);
      } else if Contains(s, ":") {
        var (name, value) := Cut(s, ":");
        if name == "" {
          Rejected(raw, i, s);
          return Err("matcher has an empty label name");
        }
        m := LabelMatcher(name, value, false, false);
      } else {
        Rejected(raw, i, s);
        return Err("matcher must be name:value, name!:value or name=~regex");
      }
      Parsed(s, m);
      out := out + [m];
    }
    assert raw[..|raw|] == raw;
    r := Ok(out);
  }

  lemma Parsed(s: string, m: LabelMatcher)
    requires Separator(s).Some? && Cut(s, Separator(s).value).0 != ""
    requires m == LabelMatcher(Cut(s, Separator(s).value).0, Cut(s, Separator(s).value).1,
                               Separator(s).value == "!:", Separator(s).value == "=~")
    ensures ParseOne(s) == Ok(m)
  {
  }

  lemma {:induction false} NonBlankLater(raw: seq<string>, i: nat, s: string)
    requires i <= |raw| && s in NonBlank(raw[..i])
    ensures s in NonBlank(raw)
    decreases |raw|
  {
    if i == |raw| {
      assert raw[..i] == raw;
    } else {
      assert raw[..|raw| - 1][..i] == raw[..i];
      NonBlankLater(raw[..|raw| - 1], i, s);
    }
  }

  lemma NonBlankNone(raw: seq<string>)
    ensures NonBlank(raw[..0]) == []
  {
  }

  lemma NonBlankNext(raw: seq<string>, i: nat)
    requires i < |raw|
    ensures NonBlank(raw[..i + 1]) == NonBlank(raw[..i]) + if TrimSpace(raw[i]) == "" then [] else [TrimSpace(raw[i])]
  {
    hide TrimSpace;
    assert raw[..i + 1][..i] == raw[..i];
  }

  lemma Rejected(raw: seq<string>, i: nat, s: string)
    requires i < |raw| && s == TrimSpace(raw[i]) && s != ""
    requires Separator(s).None? || Cut(s, Separator(s).value).0 == ""
    ensures s in NonBlank(raw) && ParseOne(s).Err?
  {
    hide TrimSpace, Separator, Contains, Index, Cut, NonBlank;
    NonBlankNext(raw, i);
    NonBlankLater(raw, i + 1, s);
  }

  lemma NonBlankSnoc(raw: seq<string>, s: string)
    ensures NonBlank(raw + [s]) == NonBlank(raw) + if TrimSpace(s) == "" then [] else [TrimSpace(s)]
  {
    hide TrimSpace;
    assert (raw + [s])[..|raw|] == raw;
  }

  lemma {:induction false} NonBlankAppend(a: seq<string>, b: seq<string>)
    ensures NonBlank(a + b) == NonBlank(a) + NonBlank(b)
    decreases |b|
  {
    hide NonBlank, TrimSpace;
    if b == [] {
      assert a + b == a && b[..0] == b;
      NonBlankNone(b);
    } else {
      var before, s := b[..|b| - 1], b[|b| - 1];
      assert b == before + [s] && a + b == (a + before) + [s];
      NonBlankAppend(a, before);
      NonBlankSnoc(before, s);
      NonBlankSnoc(a + before, s);
    }
  }

  /** An input is read, in its place, exactly when it holds more than white space, and then without its padding. */
  lemma InputCounts(raw: seq<string>, s: string, rest: seq<string>)
    ensures NonBlank(raw + [s] + rest)
         == NonBlank(raw) + (if TrimSpace(s) == "" then [] else [TrimSpace(s)]) + NonBlank(rest)
  {
    hide NonBlank, TrimSpace;
    NonBlankSnoc(raw, s);
    NonBlankAppend(raw + [s], rest);
  }

  // ----- Printing and reading back -----

  function Sep(m: LabelMatcher): string {
    if m.regex then "=~" else if m.negate then "!:" else ":"
  }

  function Print(m: LabelMatcher): string { m.name + Sep(m) + m.value }

  /** The separators tried before the one a matcher is printed with. */
  predicate EarlierSeparator(m: LabelMatcher) {
    || (!m.regex && Contains(Print(m), "=~"))
    || (!m.regex && !m.negate && Contains(Print(m), "!:"))
  }

  /**
   * When a printed matcher reads back as itself: its name is not empty and does not hold its own
   * separator, its text starts and ends with something other than white space, and holds no
   * separator that is tried earlier.
   */
  predicate ReadsBack(m: LabelMatcher) {
    && m.name != "" && !Contains(m.name, Sep(m))
    && TrimSpace(Print(m)) == Print(m)
    && !EarlierSeparator(m)
  }

  lemma FirstAt(name: string, sep: string, value: string)
    requires sep in {"=~", "!:", ":"}
    ensures Contains(name + sep + value, sep)
    ensures Index(name + sep + value, sep) == |name| <==> !Contains(name, sep)
  {
    var s := name + sep + value;
    assert s[|name|..|name| + |sep|] == sep;
    ContainsWhere(s, sep, |name|);
    var i := Index(s, sep);
    if i < |name| {
      OccursInName(name, sep, value, i);
    } else if Contains(name, sep) {
      var j := Index(name, sep);
      assert s[j..j + |sep|] == name[j..j + |sep|];
      assert OccursAt(s, sep, j);
    }
  }

  /** An occurrence that starts inside the name lies inside it: the separators do not overlap themselves. */
  lemma OccursInName(name: string, sep: string, value: string, i: nat)
    requires sep in {"=~", "!:", ":"} && i < |name| && OccursAt(name + sep + value, sep, i)
    ensures Contains(name, sep)
  {
    hide Contains;
    var s := name + sep + value;
    assert s[|name|] == sep[0];
    assert |sep| == 2 ==> s[i..i + 2][1] == s[i + 1] == sep[1];
    assert i + |sep| <= |name|;
    assert name[i..i + |sep|] == s[i..i + |sep|];
    ContainsWhere(name, sep, i);
  }

  lemma PrintSeparator(m: LabelMatcher)
    requires !(m.regex && m.negate)
    ensures Separator(Print(m)).Some?
    ensures Separator(Print(m)) == Some(Sep(m)) <==> !EarlierSeparator(m)
  {
    FirstAt(m.name, Sep(m), m.value);
  }

  lemma CutOfPrint(m: LabelMatcher)
    requires !(m.regex && m.negate)
    ensures Contains(Print(m), Sep(m))
    ensures Cut(Print(m), Sep(m)) == (m.name, m.value) <==> !Contains(m.name, Sep(m))
  {
    var s, sep := Print(m), Sep(m);
    FirstAt(m.name, sep, m.value);
    assert s[..|m.name|] == m.name && s[|m.name| + |sep|..] == m.value;
  }

  /** What a successful parse prints is what was parsed. */
  lemma ParsePrints(s: string)
    requires ParseOne(s).Ok?
    ensures Print(ParseOne(s).value) == s
  {
  }

  /** Parsing inverts printing exactly for the matchers that read back. */
  lemma RoundTrip(m: LabelMatcher)
    requires !(m.regex && m.negate)
    ensures ParseOne(TrimSpace(Print(m))) == Ok(m) <==> ReadsBack(m)
  {
    hide Index, Contains, TrimSpace, Cut;
    var s := TrimSpace(Print(m));
    if s == Print(m) {
      PrintSeparator(m);
      CutOfPrint(m);
      if ParseOne(s) == Ok(m) { SameKindSameSeparator(s, m); }
    } else if ParseOne(s).Ok? {
      ParsePrints(s);
    }
  }

  lemma SameKindSameSeparator(s: string, m: LabelMatcher)
    requires ParseOne(s) == Ok(m)
    ensures Separator(s) == Some(Sep(m)) && m.name != "" && Cut(s, Sep(m)) == (m.name, m.value)
  {
  }
}

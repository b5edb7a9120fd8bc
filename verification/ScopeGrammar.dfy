/** The scope policy of hushh_mcp/constants.py: its regular expressions, given the
    meaning of regular languages, against a check of the dot-separated segments. */
module ScopeGrammar {
  import opened Text

  // ------------------------------------------------------------------
  // Regular expressions
  // ------------------------------------------------------------------

  datatype Regex =
    | Lit(text: string)
    | Class(ranges: seq<(char, char)>)
    | Cat(first: Regex, second: Regex)
    | Alt(left: Regex, right: Regex)
    | Star(body: Regex)
    | UpTo(body: Regex, count: nat)

  predicate InClass(c: char, ranges: seq<(char, char)>) {
    exists i :: 0 <= i < |ranges| && ranges[i].0 <= c <= ranges[i].1
  }

  /** re.fullmatch: the whole of `s` is in the language of `r`. */
  ghost predicate Matches(r: Regex, s: string)
    decreases r, 0, |s|
  {
    match r
    case Lit(text) => s == text
    case Class(ranges) => |s| == 1 && InClass(s[0], ranges)
    case Cat(a, b) => exists x, y :: s == x + y && Matches(a, x) && Matches(b, y)
    case Alt(a, b) => Matches(a, s) || Matches(b, s)
    case Star(a) => s == "" || exists x, y :: s == x + y && x != "" && Matches(a, x) && Matches(r, y)
    case UpTo(a, n) => Repeats(a, n, s)
  }

  /** At most n consecutive matches of `a` make up `s`. */
  ghost predicate Repeats(a: Regex, n: nat, s: string)
    decreases a, 1, n
  {
    s == "" || (n > 0 && exists x, y :: s == x + y && x != "" && Matches(a, x) && Repeats(a, n - 1, y))
  }

  function Opt(r: Regex): Regex {
    Alt(Lit(""), r)
  }

  const LOWERCASE := Class([('a', 'z')])
  const WORD := Class([('a', 'z'), ('0', '9'), ('_', '_')])
  const ALNUM := Class([('a', 'z'), ('0', '9')])

  /** _SCOPE_SLUG */
  const SLUG_END := Cat(UpTo(WORD, 62), ALNUM)
  const SLUG := Cat(LOWERCASE, Opt(SLUG_END))
  const DOT_SLUG := Cat(Lit("."), SLUG)

  /** _DYNAMIC_SCOPE_PATTERN */
  const PATH_TAIL := Cat(Star(DOT_SLUG), Opt(Lit(".*")))
  const PATH := Alt(Lit("*"), Cat(SLUG, PATH_TAIL))
  const DYNAMIC_PATTERN := Cat(Lit("attr."), Cat(SLUG, Cat(Lit("."), PATH)))

  /** _EXTERNAL_DYNAMIC_SCOPE_PATTERN */
  const BRANCH := Cat(SLUG, Lit(".*"))
  const EXTERNAL_PATTERN := Cat(Lit("attr."), Cat(SLUG, Cat(Lit("."), BRANCH)))

  /** The pattern in resolve_scope_api: unbounded names, and a `$` that also
      matches just before a final newline. */
  const NAME := Cat(LOWERCASE, Star(WORD))
  const DOT_NAME := Cat(Lit("."), NAME)
  const RESOLVE_END := Cat(Opt(Lit(".*")), Opt(Lit("\n")))
  const RESOLVE_PATTERN := Cat(Lit("attr."), Cat(NAME, Cat(Star(DOT_NAME), RESOLVE_END)))

  // ------------------------------------------------------------------
  // The reference definition: split on '.' and look at each segment
  // ------------------------------------------------------------------

  predicate IsLowercase(c: char) {
    'a' <= c <= 'z'
  }

  predicate IsWord(c: char) {
    IsLowercase(c) || IsDigit(c) || c == '_'
  }

  predicate IsSlug(s: string) {
    1 <= |s| <= 64 && IsLowercase(s[0]) && s[|s| - 1] != '_' && forall i :: 0 <= i < |s| ==> IsWord(s[i])
  }

  predicate AllSlugs(parts: seq<string>) {
    forall i :: 0 <= i < |parts| ==> IsSlug(parts[i])
  }

  /** attr, a domain slug, then path slugs of which a final `*` may take the last place. */
  predicate DynamicSegments(parts: seq<string>) {
    && |parts| >= 3
    && parts[0] == "attr"
    && AllSlugs(parts[1..|parts| - 1])
    && (parts[|parts| - 1] == "*" || IsSlug(parts[|parts| - 1]))
  }

  // ------------------------------------------------------------------
  // The slug expression
  // ------------------------------------------------------------------

  lemma ClassMeaning(c: char)
    ensures InClass(c, LOWERCASE.ranges) <==> IsLowercase(c)
    ensures InClass(c, WORD.ranges) <==> IsWord(c)
    ensures InClass(c, ALNUM.ranges) <==> IsWord(c) && c != '_'
  {
    assert LOWERCASE.ranges[0] == ('a', 'z');
    assert WORD.ranges[0] == ('a', 'z') && WORD.ranges[1] == ('0', '9') && WORD.ranges[2] == ('_', '_');
    assert ALNUM.ranges[0] == ('a', 'z') && ALNUM.ranges[1] == ('0', '9');
  }

  lemma {:induction false} RepeatsWord(n: nat, s: string)
    ensures Repeats(WORD, n, s) <==> |s| <= n && forall i :: 0 <= i < |s| ==> IsWord(s[i])
    decreases n
  {
    if s != "" && n > 0 {
      ClassMeaning(s[0]);
      RepeatsWord(n - 1, s[1..]);
      assert forall i :: 0 <= i < |s[1..]| ==> s[1..][i] == s[i + 1];
      if Repeats(WORD, n, s) {
        var x, y :| s == x + y && x != "" && Matches(WORD, x) && Repeats(WORD, n - 1, y);
        assert y == s[1..];
      } else if |s| <= n && forall i :: 0 <= i < |s| ==> IsWord(s[i]) {
        assert s == [s[0]] + s[1..] && Matches(WORD, [s[0]]);
      }
    }
  }

  lemma CatIntro(a: Regex, b: Regex, s: string, t: string)
    requires Matches(a, s) && Matches(b, t)
    ensures Matches(Cat(a, b), s + t)
  {
  }

  lemma CatElim(a: Regex, b: Regex, s: string) returns (x: string, y: string)
    requires Matches(Cat(a, b), s)
    ensures s == x + y && Matches(a, x) && Matches(b, y)
  {
    x, y :| s == x + y && Matches(a, x) && Matches(b, y);
  }

  lemma Cat4Intro(a: Regex, b: Regex, c: Regex, d: Regex, s: string, t: string, u: string, v: string)
    requires Matches(a, s) && Matches(b, t) && Matches(c, u) && Matches(d, v)
    ensures Matches(Cat(a, Cat(b, Cat(c, d))), s + (t + (u + v)))
  {
    CatIntro(c, d, u, v);
    CatIntro(b, Cat(c, d), t, u + v);
    CatIntro(a, Cat(b, Cat(c, d)), s, t + (u + v));
  }

  lemma Cat4Elim(a: Regex, b: Regex, c: Regex, d: Regex, s: string)
      returns (x: string, y: string, z: string, w: string)
    requires Matches(Cat(a, Cat(b, Cat(c, d))), s)
    ensures s == x + (y + (z + w))
    ensures Matches(a, x) && Matches(b, y) && Matches(c, z) && Matches(d, w)
  {
    var rest;
    x, rest := CatElim(a, Cat(b, Cat(c, d)), s);
    y, rest := CatElim(b, Cat(c, d), rest);
    z, w := CatElim(c, d, rest);
  }

  lemma AltMeaning(a: Regex, b: Regex, s: string)
    ensures Matches(Alt(a, b), s) <==> Matches(a, s) || Matches(b, s)
  {
  }

  lemma OptMeaning(r: Regex, s: string)
    ensures Matches(Opt(r), s) <==> s == "" || Matches(r, s)
  {
    assert Matches(Lit(""), s) <==> s == "";
  }

  predicate IsSlugEnd(s: string) {
    1 <= |s| <= 63 && s[|s| - 1] != '_' && forall i :: 0 <= i < |s| ==> IsWord(s[i])
  }

  lemma WordsThenAlnum(n: nat, middle: string, last: string)
    requires Matches(UpTo(WORD, n), middle) && Matches(ALNUM, last)
    ensures |middle| <= n && |last| == 1 && last[0] != '_'
    ensures forall i :: 0 <= i < |middle + last| ==> IsWord((middle + last)[i])
  {
    assert Repeats(WORD, n, middle);
    RepeatsWord(n, middle);
    ClassMeaning(last[0]);
  }

  lemma SlugEndElim(s: string)
    requires Matches(SLUG_END, s)
    ensures IsSlugEnd(s)
  {
    var middle, last := CatElim(UpTo(WORD, 62), ALNUM, s);
    WordsThenAlnum(62, middle, last);
  }

  lemma SlugEndIntro(s: string)
    requires IsSlugEnd(s)
    ensures Matches(SLUG_END, s)
  {
    var middle, last := s[..|s| - 1], s[|s| - 1..];
    assert s == middle + last;
    ClassMeaning(last[0]);
    RepeatsWord(62, middle);
    assert Matches(UpTo(WORD, 62), middle);
    assert Matches(ALNUM, last);
    CatIntro(UpTo(WORD, 62), ALNUM, middle, last);
  }

  lemma SlugMatches(s: string)
    ensures Matches(SLUG, s) <==> IsSlug(s)
  {
    if Matches(SLUG, s) {
      var x, y := CatElim(LOWERCASE, Opt(SLUG_END), s);
      ClassMeaning(x[0]);
      OptMeaning(SLUG_END, y);
      if y != "" { SlugEndElim(y); }
    }
    if IsSlug(s) {
      ClassMeaning(s[0]);
      var x, y := s[..1], s[1..];
      OptMeaning(SLUG_END, y);
      if y != "" { SlugEndIntro(y); }
      assert y != "" ==> y[|y| - 1] == s[|s| - 1];
      assert Matches(LOWERCASE, x);
      CatIntro(LOWERCASE, Opt(SLUG_END), x, y);
      assert s == x + y;
    }
  }

  // ------------------------------------------------------------------
  // Sequences of dotted slugs
  // ------------------------------------------------------------------

  /** ".a.b.c" for the parts a, b, c. */
  function Dotted(parts: seq<string>): string {
    if parts == [] then "" else "." + parts[0] + Dotted(parts[1..])
  }

  lemma {:induction false} DottedAppend(xs: seq<string>, ys: seq<string>)
    ensures Dotted(xs + ys) == Dotted(xs) + Dotted(ys)
  {
    if xs == [] {
      assert xs + ys == ys;
    } else {
      assert (xs + ys)[1..] == xs[1..] + ys;
      DottedAppend(xs[1..], ys);
    }
  }

  lemma DottedCons(first: string, rest: seq<string>, end: string)
    ensures "." + (first + (Dotted(rest) + end)) == Dotted([first] + rest) + end
  {
    assert ([first] + rest)[1..] == rest;
  }

  lemma {:induction false} JoinIsDotted(first: string, rest: seq<string>)
    ensures Join([first] + rest, ".") == first + Dotted(rest)
    decreases rest
  {
    var parts := [first] + rest;
    if rest != [] {
      assert parts[1..] == [rest[0]] + rest[1..];
      JoinIsDotted(rest[0], rest[1..]);
    }
  }

  lemma SlugHasNoDot(s: string)
    requires IsSlug(s)
    ensures '.' !in s && s != "*"
  {
  }

  lemma {:induction false} StarDotSlug(s: string) returns (parts: seq<string>)
    requires Matches(Star(DOT_SLUG), s)
    ensures AllSlugs(parts) && s == Dotted(parts)
    decreases |s|
  {
    if s == "" {
      parts := [];
    } else {
      var x, y :| s == x + y && x != "" && Matches(DOT_SLUG, x) && Matches(Star(DOT_SLUG), y);
      var dot, slug := CatElim(Lit("."), SLUG, x);
      SlugMatches(slug);
      var rest := StarDotSlug(y);
      parts := [slug] + rest;
      assert parts[1..] == rest;
    }
  }

  lemma {:induction false} StarDotSlugIntro(parts: seq<string>)
    requires AllSlugs(parts)
    ensures Matches(Star(DOT_SLUG), Dotted(parts))
  {
    if parts != [] {
      SlugMatches(parts[0]);
      CatIntro(Lit("."), SLUG, ".", parts[0]);
      StarDotSlugIntro(parts[1..]);
      assert Matches(DOT_SLUG, "." + parts[0]);
    }
  }

  // ------------------------------------------------------------------
  // Dynamic scopes: pattern, segments and structure
  // ------------------------------------------------------------------

  /** attr.{domain}.{path...} or attr.{domain}.{path...}.* */
  datatype DynamicScope = DynamicScope(domain: string, path: seq<string>, wildcard: bool)

  predicate WellFormed(d: DynamicScope) {
    IsSlug(d.domain) && AllSlugs(d.path) && (d.path == [] ==> d.wildcard)
  }

  function Segments(d: DynamicScope): seq<string> {
    ["attr", d.domain] + d.path + (if d.wildcard then ["*"] else [])
  }

  function Print(d: DynamicScope): string {
    Join(Segments(d), ".")
  }

  function Parse(s: string): Option<DynamicScope> {
    var parts := Split(s, '.');
    if !DynamicSegments(parts) then None
    else if parts[|parts| - 1] == "*" then Some(DynamicScope(parts[1], parts[2..|parts| - 1], true))
    else Some(DynamicScope(parts[1], parts[2..], false))
  }

  lemma PrintParts(d: DynamicScope)
    requires WellFormed(d)
    ensures Split(Print(d), '.') == Segments(d) && DynamicSegments(Segments(d))
  {
    var parts := Segments(d);
    forall i | 0 <= i < |parts| ensures '.' !in parts[i] {
      if i == 1 {
        SlugHasNoDot(d.domain);
      } else if 2 <= i < 2 + |d.path| {
        assert parts[i] == d.path[i - 2];
        SlugHasNoDot(d.path[i - 2]);
      }
    }
    SplitJoin(parts, '.');
    var n := |parts| - 1;
    forall i | 0 <= i < |parts[1..n]| ensures IsSlug(parts[1..n][i]) {
      assert parts[1..n][i] == parts[i + 1];
    }
  }

  /** Parsing undoes printing on every well-formed scope. */
  lemma ParsePrint(d: DynamicScope)
    requires WellFormed(d)
    ensures Parse(Print(d)) == Some(d)
  {
    PrintParts(d);
    var parts := Segments(d);
    if d.wildcard {
      assert parts[2..|parts| - 1] == d.path;
    } else {
      SlugHasNoDot(d.path[|d.path| - 1]);
      assert parts[|parts| - 1] == d.path[|d.path| - 1];
      assert parts[2..] == d.path;
    }
  }

  lemma ParsedParts(parts: seq<string>, path: seq<string>, wildcard: bool)
    requires DynamicSegments(parts) && wildcard == (parts[|parts| - 1] == "*")
    requires path == if wildcard then parts[2..|parts| - 1] else parts[2..]
    ensures AllSlugs(path) && IsSlug(parts[1])
    ensures ["attr", parts[1]] + path + (if wildcard then ["*"] else []) == parts
  {
    var n := |parts| - 1;
    assert parts[1..n][0] == parts[1];
    forall i | 0 <= i < |path| ensures IsSlug(path[i]) {
      assert path[i] == parts[i + 2];
      if i + 2 < n { assert parts[1..n][i + 1] == parts[i + 2]; }
    }
  }

  /** Printing undoes parsing, and only well-formed scopes come out of it. */
  lemma PrintParse(s: string)
    requires Parse(s).Some?
    ensures WellFormed(Parse(s).value) && Print(Parse(s).value) == s
  {
    var d := Parse(s).value;
    ParsedParts(Split(s, '.'), d.path, d.wildcard);
    JoinSplit(s, '.');
  }

  lemma PrintText(d: DynamicScope)
    ensures Print(d) == "attr." + d.domain + Dotted(d.path) + (if d.wildcard then ".*" else "")
  {
    var tail := d.path + (if d.wildcard then ["*"] else []);
    assert Segments(d) == ["attr"] + ([d.domain] + tail);
    JoinIsDotted("attr", [d.domain] + tail);
    assert ([d.domain] + tail)[1..] == tail;
    DottedAppend(d.path, if d.wildcard then ["*"] else []);
  }

  lemma TailToParts(first: string, rest: string) returns (path: seq<string>, wildcard: bool)
    requires IsSlug(first) && Matches(PATH_TAIL, rest)
    ensures AllSlugs(path) && path != []
    ensures "." + (first + rest) == Dotted(path) + (if wildcard then ".*" else "")
  {
    var more, end := CatElim(Star(DOT_SLUG), Opt(Lit(".*")), rest);
    OptMeaning(Lit(".*"), end);
    assert Matches(Lit(".*"), end) ==> end == ".*";
    var slugs := StarDotSlug(more);
    path, wildcard := [first] + slugs, end != "";
    DottedCons(first, slugs, end);
  }

  lemma PathToParts(s: string) returns (path: seq<string>, wildcard: bool)
    requires Matches(PATH, s)
    ensures AllSlugs(path) && (path == [] ==> wildcard)
    ensures "." + s == Dotted(path) + (if wildcard then ".*" else "")
  {
    AltMeaning(Lit("*"), Cat(SLUG, PATH_TAIL), s);
    if Matches(Lit("*"), s) {
      path, wildcard := [], true;
    } else {
      var first, rest := CatElim(SLUG, PATH_TAIL, s);
      SlugMatches(first);
      path, wildcard := TailToParts(first, rest);
    }
  }

  lemma PartsToPath(path: seq<string>, wildcard: bool) returns (s: string)
    requires AllSlugs(path) && (path == [] ==> wildcard)
    ensures Matches(PATH, s)
    ensures "." + s == Dotted(path) + (if wildcard then ".*" else "")
  {
    if path == [] {
      s := "*";
    } else {
      var end := if wildcard then ".*" else "";
      SlugMatches(path[0]);
      StarDotSlugIntro(path[1..]);
      OptMeaning(Lit(".*"), end);
      CatIntro(Star(DOT_SLUG), Opt(Lit(".*")), Dotted(path[1..]), end);
      s := path[0] + (Dotted(path[1..]) + end);
      CatIntro(SLUG, PATH_TAIL, path[0], Dotted(path[1..]) + end);
      DottedCons(path[0], path[1..], end);
      assert path == [path[0]] + path[1..];
      AltMeaning(Lit("*"), Cat(SLUG, PATH_TAIL), s);
    }
  }

  lemma DynamicText(d: DynamicScope, tail: string)
    requires "." + tail == Dotted(d.path) + (if d.wildcard then ".*" else "")
    ensures Print(d) == "attr." + (d.domain + ("." + tail))
  {
    PrintText(d);
  }

  lemma PatternToScope(s: string) returns (d: DynamicScope)
    requires Matches(DYNAMIC_PATTERN, s)
    ensures WellFormed(d) && s == Print(d)
  {
    var attr, domain, dot, tail := Cat4Elim(Lit("attr."), SLUG, Lit("."), PATH, s);
    SlugMatches(domain);
    var path, wildcard := PathToParts(tail);
    d := DynamicScope(domain, path, wildcard);
    DynamicText(d, tail);
  }

  lemma ScopeToPattern(d: DynamicScope)
    requires WellFormed(d)
    ensures Matches(DYNAMIC_PATTERN, Print(d))
  {
    var tail := PartsToPath(d.path, d.wildcard);
    SlugMatches(d.domain);
    DynamicText(d, tail);
    Cat4Intro(Lit("attr."), SLUG, Lit("."), PATH, "attr.", d.domain, ".", tail);
  }

  /** The pattern accepts exactly the texts whose dot-separated segments pass the check. */
  lemma DynamicPatternMeaning(s: string)
    ensures Matches(DYNAMIC_PATTERN, s) <==> DynamicSegments(Split(s, '.'))
  {
    if Matches(DYNAMIC_PATTERN, s) {
      var d := PatternToScope(s);
      PrintParts(d);
    }
    if DynamicSegments(Split(s, '.')) {
      PrintParse(s);
      ScopeToPattern(Parse(s).value);
    }
  }

  // ------------------------------------------------------------------
  // Policy: which scopes an external application may request
  // ------------------------------------------------------------------

  const INTERNAL_ONLY: set<string> := {"vault.owner", "pkm.read", "pkm.write"}

  const RETIRED: set<string> := {
    "agent.one.orchestrate", "portfolio.analyze", "portfolio.read", "chat.history.read",
    "chat.history.write", "embedding.profile.read", "embedding.profile.compute", "pkm.metadata",
    "agent.kai.debate", "agent.kai.infer", "agent.kai.chat", "agent.kai.execute", "agent.nav.revoke",
    "agent.kyc.draft", "agent.kyc.writeback", "cap.pkm.marketplace.publish", "external.sec.filings",
    "external.news.api", "external.market.data", "external.renaissance.data"
  }

  /** ConsentScope.list(): the scopes an enforcement path may authorize. */
  const ACTIVE_RESERVED: set<string> := {
    "vault.owner", "portfolio.import", "brokerage.transfer.write", "pkm.read", "pkm.write",
    "cap.one.invoke", "agent.kai.analyze", "agent.nav.review", "agent.kyc.process",
    "agent.kyc.redraft.llm", "agent.kyc.disclose.llm", "cap.location.live.share",
    "cap.location.live.view", "cap.location.live.request", "cap.location.live.revoke",
    "cap.location.live.refer_request", "cap.pkm.marketplace.view", "cap.pkm.marketplace.manage"
  }

  ghost predicate IsDynamicScope(scope: string) {
    Matches(DYNAMIC_PATTERN, Strip(scope))
  }

  ghost predicate IsExternalRequestable(scope: string) {
    Strip(scope) == "cap.one.invoke" || Matches(EXTERNAL_PATTERN, Strip(scope))
  }

  predicate IsRetired(scope: string) {
    Strip(scope) in RETIRED
  }

  /** resolve_scope_api: None for an input that names no scope. */
  ghost function ResolveScopeApi(scope: string): Option<string> {
    var value := Strip(scope);
    if value == "" then None
    else if value == "cap.one.invoke" then Some("cap.one.invoke")
    else if Matches(RESOLVE_PATTERN, value) then Some(value)
    else None
  }

  lemma BranchElim(s: string) returns (slug: string)
    requires Matches(BRANCH, s)
    ensures IsSlug(slug) && s == slug + ".*"
  {
    var end;
    slug, end := CatElim(SLUG, Lit(".*"), s);
    SlugMatches(slug);
  }

  lemma BranchText(domain: string, slug: string)
    ensures Print(DynamicScope(domain, [slug], true)) == "attr." + (domain + ("." + (slug + ".*")))
  {
    PrintText(DynamicScope(domain, [slug], true));
    assert [slug][1..] == [];
    assert Dotted([slug]) == "." + slug;
  }

  lemma ExternalElim(s: string) returns (d: DynamicScope)
    requires Matches(EXTERNAL_PATTERN, s)
    ensures WellFormed(d) && d.wildcard && |d.path| == 1 && s == Print(d)
  {
    var attr, domain, dot, branch := Cat4Elim(Lit("attr."), SLUG, Lit("."), BRANCH, s);
    SlugMatches(domain);
    var slug := BranchElim(branch);
    BranchText(domain, slug);
    d := DynamicScope(domain, [slug], true);
  }

  lemma ExternalIntro(d: DynamicScope)
    requires WellFormed(d) && d.wildcard && |d.path| == 1
    ensures Matches(EXTERNAL_PATTERN, Print(d))
  {
    SlugMatches(d.domain);
    SlugMatches(d.path[0]);
    CatIntro(SLUG, Lit(".*"), d.path[0], ".*");
    BranchText(d.domain, d.path[0]);
    assert d.path == [d.path[0]];
    Cat4Intro(Lit("attr."), SLUG, Lit("."), BRANCH, "attr.", d.domain, ".", d.path[0] + ".*");
  }

  /** The external pattern: exactly one semantic branch, attr.{domain}.{scope}.* */
  lemma ExternalPatternMeaning(s: string)
    ensures Matches(EXTERNAL_PATTERN, s)
       <==> Parse(s).Some? && Parse(s).value.wildcard && |Parse(s).value.path| == 1
  {
    if Matches(EXTERNAL_PATTERN, s) {
      var d := ExternalElim(s);
      ParsePrint(d);
    }
    if Parse(s).Some? && Parse(s).value.wildcard && |Parse(s).value.path| == 1 {
      PrintParse(s);
      ExternalIntro(Parse(s).value);
    }
  }

  lemma DynamicPrefix(s: string)
    requires Parse(s).Some?
    ensures "attr." <= s
  {
    PrintParse(s);
    PrintText(Parse(s).value);
  }

  lemma ReservedHaveNoAttrPrefix(t: string)
    requires t in RETIRED || t in INTERNAL_ONLY || t == "cap.one.invoke"
    ensures !("attr." <= t)
  {
    assert t[0] == 'v' || t[0] == 'p' || t[0] == 'a' || t[0] == 'c' || t[0] == 'e';
    assert t[0] == 'a' ==> t[1] == 'g';
  }

  /** Whatever an external application may request is the invocation capability or one
      discovered branch; it is never an internal authority and never a retired value. */
  lemma ExternalIsSafe(scope: string)
    requires IsExternalRequestable(scope)
    ensures Strip(scope) == "cap.one.invoke" || IsDynamicScope(scope)
    ensures Strip(scope) !in INTERNAL_ONLY && !IsRetired(scope)
  {
    var s := Strip(scope);
    if s == "cap.one.invoke" {
      InvokeIsNeitherInternalNorRetired();
    } else {
      ExternalPatternMeaning(s);
      DynamicPatternMeaning(s);
      DynamicPrefix(s);
      if s in RETIRED || s in INTERNAL_ONLY { ReservedHaveNoAttrPrefix(s); }
    }
  }

  lemma InvokeIsNeitherInternalNorRetired()
    ensures "cap.one.invoke" !in INTERNAL_ONLY && "cap.one.invoke" !in RETIRED
  {
    assert forall t :: t in RETIRED && |t| == 14 ==> t[0] != 'c';
    assert "cap.one.invoke"[0] == 'c';
  }

  // ------------------------------------------------------------------
  // resolve_scope_api
  // ------------------------------------------------------------------

  lemma {:induction false} StarWordIntro(s: string)
    requires forall i :: 0 <= i < |s| ==> IsWord(s[i])
    ensures Matches(Star(WORD), s)
  {
    if s != "" {
      ClassMeaning(s[0]);
      assert forall i :: 0 <= i < |s[1..]| ==> s[1..][i] == s[i + 1];
      StarWordIntro(s[1..]);
      assert Matches(WORD, [s[0]]) && s == [s[0]] + s[1..];
    }
  }

  lemma SlugIsName(s: string)
    requires IsSlug(s)
    ensures Matches(NAME, s)
  {
    ClassMeaning(s[0]);
    StarWordIntro(s[1..]);
    assert Matches(LOWERCASE, [s[0]]);
    CatIntro(LOWERCASE, Star(WORD), [s[0]], s[1..]);
    assert s == [s[0]] + s[1..];
  }

  lemma {:induction false} StarDotNameIntro(parts: seq<string>)
    requires AllSlugs(parts)
    ensures Matches(Star(DOT_NAME), Dotted(parts))
  {
    if parts != [] {
      SlugIsName(parts[0]);
      CatIntro(Lit("."), NAME, ".", parts[0]);
      StarDotNameIntro(parts[1..]);
      assert Matches(DOT_NAME, "." + parts[0]);
    }
  }

  lemma ResolveEndIntro(end: string)
    requires end == "" || end == ".*"
    ensures Matches(RESOLVE_END, end)
  {
    OptMeaning(Lit(".*"), end);
    OptMeaning(Lit("\n"), "");
    CatIntro(Opt(Lit(".*")), Opt(Lit("\n")), end, "");
    assert end + "" == end;
  }

  lemma NamesResolve(domain: string, names: string, end: string)
    requires Matches(NAME, domain) && Matches(Star(DOT_NAME), names) && Matches(RESOLVE_END, end)
    ensures Matches(RESOLVE_PATTERN, "attr." + (domain + (names + end)))
  {
    Cat4Intro(Lit("attr."), NAME, Star(DOT_NAME), RESOLVE_END, "attr.", domain, names, end);
  }

  lemma ScopeText(d: DynamicScope, end: string)
    requires end == if d.wildcard then ".*" else ""
    ensures Print(d) == "attr." + (d.domain + (Dotted(d.path) + end))
  {
    PrintText(d);
  }

  lemma ScopeResolves(d: DynamicScope)
    requires WellFormed(d)
    ensures Matches(RESOLVE_PATTERN, Print(d))
  {
    var end := if d.wildcard then ".*" else "";
    SlugIsName(d.domain);
    StarDotNameIntro(d.path);
    ResolveEndIntro(end);
    ScopeText(d, end);
    NamesResolve(d.domain, Dotted(d.path), end);
  }

  /** Every dynamic scope, once trimmed, is returned unchanged. */
  lemma DynamicResolvesToItself(scope: string)
    requires IsDynamicScope(scope)
    ensures ResolveScopeApi(scope) == Some(Strip(scope))
  {
    var d := PatternToScope(Strip(scope));
    ScopeResolves(d);
    PrintText(d);
    assert Strip(scope)[0] == 'a';
  }

  /** No input is an alias of an internal authority: what resolves is the invocation
      capability or an attr scope, and is the trimmed input itself. */
  lemma ResolvedIsNeverInternal(scope: string)
    requires ResolveScopeApi(scope).Some?
    ensures ResolveScopeApi(scope).value == Strip(scope)
    ensures Strip(scope) !in INTERNAL_ONLY && !IsRetired(scope)
  {
    var s := Strip(scope);
    if s == "cap.one.invoke" {
      InvokeIsNeitherInternalNorRetired();
    } else {
      var attr, name, names, end := Cat4Elim(Lit("attr."), NAME, Star(DOT_NAME), RESOLVE_END, s);
      assert "attr." <= s;
      if s in RETIRED || s in INTERNAL_ONLY { ReservedHaveNoAttrPrefix(s); }
    }
  }
}

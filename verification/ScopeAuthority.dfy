/** Which granted scope satisfies which requested one: the parser and matcher of
    hushh_mcp/consent/scope_generator.py and scope_matches of scope_helpers.py.
    Matching is proved to be inclusion of the data paths two scopes stand for, and
    to be a preorder over all strings, so that no chain of grants widens access. */
module ScopeAuthority {
  import opened Text
  import opened ScopeGrammar

  /** str.lower() and str.isalnum(), which are tables of the Unicode database. */
  datatype CharTables = CharTables(lower: string -> string, alnum: char -> bool)

  /** What every version of those tables says about ASCII. */
  ghost predicate AgreesOnAscii(tables: CharTables) {
    && (forall s: string :: (forall i :: 0 <= i < |s| ==> IsWord(s[i]) || s[i] == '.') ==> tables.lower(s) == s)
    && (forall c :: IsWord(c) && c != '_' ==> tables.alnum(c))
  }

  datatype ParsedScope = ParsedScope(domain: Option<string>, path: Option<string>, wildcard: bool)

  const INVALID := ParsedScope(None, None, false)

  // ------------------------------------------------------------------
  // The parser
  // ------------------------------------------------------------------

  function StripUnderscores(s: string): string {
    if s != "" && s[0] == '_' then StripUnderscores(s[1..])
    else if s != "" && s[|s| - 1] == '_' then StripUnderscores(s[..|s| - 1])
    else s
  }

  function NormalizePart(tables: CharTables, part: string): string {
    var p := Strip(part);
    StripUnderscores(seq(|p|, i requires 0 <= i < |p| => if tables.alnum(p[i]) || p[i] == '_' then p[i] else '_'))
  }

  function NormalizeParts(tables: CharTables, parts: seq<string>): seq<string> {
    if parts == [] then []
    else
      var first := NormalizePart(tables, parts[0]);
      (if first == "" then [] else [first]) + NormalizeParts(tables, parts[1..])
  }

  /** _normalize_scope_path */
  function NormalizePath(tables: CharTables, path: string): string {
    var raw := tables.lower(Strip(path));
    if raw == "" then "" else Join(NormalizeParts(tables, Split(raw, '.')), ".")
  }

  function NonEmpty(parts: seq<string>): seq<string> {
    if parts == [] then []
    else (if parts[0] == "" then [] else [parts[0]]) + NonEmpty(parts[1..])
  }

  function OrNone(s: string): Option<string> {
    if s == "" then None else Some(s)
  }

  /** parse_scope once the prefix is cut off and the rest split into non-empty parts. */
  function ParseParts(tables: CharTables, parts: seq<string>): ParsedScope {
    if parts == [] then INVALID
    else
      var domain := tables.lower(Strip(parts[0]));
      var n := |parts| - 1;
      if domain == "" then INVALID
      else if n == 0 then ParsedScope(Some(domain), None, false)
      else if parts[n] == "*" then
        if n == 1 then ParsedScope(Some(domain), None, true)
        else ParsedScope(Some(domain), OrNone(NormalizePath(tables, Join(parts[1..n], "."))), true)
      else ParsedScope(Some(domain), OrNone(NormalizePath(tables, Join(parts[1..], "."))), false)
  }

  /** parse_scope */
  function ParseScope(tables: CharTables, scope: string): ParsedScope {
    if !("attr." <= scope) then INVALID
    else ParseParts(tables, NonEmpty(Split(Strip(scope[5..]), '.')))
  }

  // ------------------------------------------------------------------
  // The matchers
  // ------------------------------------------------------------------

  /** matches_wildcard on the two parses; `same` says whether the two strings are equal. */
  predicate ParsedMatches(g: ParsedScope, r: ParsedScope, same: bool) {
    if g.domain.None? || r.domain.None? then same
    else if g.domain != r.domain then false
    else if !g.wildcard then same
    else if g.path.None? then true
    else r.path.Some? && (r.path == g.path || g.path.value + "." <= r.path.value)
  }

  /** matches_wildcard(requested, granted) */
  predicate MatchesWildcard(tables: CharTables, requested: string, granted: string) {
    ParsedMatches(ParseScope(tables, granted), ParseScope(tables, requested), requested == granted)
  }

  /** scope_matches(granted, requested) */
  predicate ScopeMatches(tables: CharTables, granted: string, requested: string) {
    if granted in RETIRED || requested in RETIRED then false
    else if granted == requested then true
    else if granted == "vault.owner" then true
    else if granted == "pkm.read" && "attr." <= requested then true
    else if "attr." <= granted && "attr." <= requested then MatchesWildcard(tables, requested, granted)
    else false
  }

  /** ConsentScope.check_access(requested, granted_scopes) */
  ghost predicate CheckAccess(tables: CharTables, requested: string, granted: seq<string>) {
    "vault.owner" in granted || requested in granted
    || (IsDynamicScope(requested) && exists g :: g in granted && MatchesWildcard(tables, requested, g))
  }

  // ------------------------------------------------------------------
  // Laws over all strings
  // ------------------------------------------------------------------

  lemma StartsWithTransitive(a: string, b: string, c: string)
    requires a == b || a + "." <= b
    requires b == c || b + "." <= c
    ensures a == c || a + "." <= c
  {
    if a + "." <= b && b + "." <= c {
      assert c[..|b|] == b && b[..|a| + 1] == a + ".";
      assert c[..|a| + 1] == a + ".";
    }
  }

  /** A scope satisfies itself unless it is retired. */
  lemma MatchesReflexive(tables: CharTables, s: string)
    ensures ScopeMatches(tables, s, s) <==> s !in RETIRED
  {
  }

  lemma AttrIsNotReserved(s: string)
    requires "attr." <= s
    ensures s != "vault.owner" && s != "pkm.read" && s !in RETIRED
  {
    assert s[0] == 'a';
    if s in RETIRED || s in INTERNAL_ONLY { ReservedHaveNoAttrPrefix(s); }
  }

  lemma WildcardTransitive(tables: CharTables, a: string, b: string, c: string)
    requires MatchesWildcard(tables, b, a) && MatchesWildcard(tables, c, b)
    ensures MatchesWildcard(tables, c, a)
  {
    var pa, pb, pc := ParseScope(tables, a), ParseScope(tables, b), ParseScope(tables, c);
    if pa.path.Some? && pb.path.Some? && pc.path.Some? && pa.domain.Some? && pb.domain.Some? {
      if a != b && b != c { StartsWithTransitive(pa.path.value, pb.path.value, pc.path.value); }
    }
  }

  /** No chain of grants reaches further than its first scope, whatever the strings are. */
  lemma MatchesTransitive(tables: CharTables, a: string, b: string, c: string)
    requires ScopeMatches(tables, a, b) && ScopeMatches(tables, b, c)
    ensures ScopeMatches(tables, a, c)
  {
    if a != b && b != c && a != "vault.owner" {
      assert "attr." <= b;
      AttrIsNotReserved(b);
      if a != "pkm.read" { WildcardTransitive(tables, a, b, c); }
    }
  }

  /** An attr scope never satisfies a request outside its own domain. */
  lemma DomainIsolation(tables: CharTables, granted: string, requested: string)
    requires "attr." <= granted && ScopeMatches(tables, granted, requested)
    ensures "attr." <= requested
    ensures requested == granted || ParseScope(tables, requested).domain == ParseScope(tables, granted).domain
  {
    AttrIsNotReserved(granted);
  }

  // ------------------------------------------------------------------
  // What a well-formed dynamic scope parses to
  // ------------------------------------------------------------------

  lemma SlugStaysTheSame(tables: CharTables, s: string)
    requires AgreesOnAscii(tables) && IsSlug(s)
    ensures Strip(s) == s && tables.lower(s) == s && NormalizePart(tables, s) == s
  {
    StripTrimmed(s);
    var mapped := seq(|s|, i requires 0 <= i < |s| => if tables.alnum(s[i]) || s[i] == '_' then s[i] else '_');
    assert mapped == s;
    assert s[0] != '_';
  }

  lemma {:induction false} SlugsStayTheSame(tables: CharTables, parts: seq<string>)
    requires AgreesOnAscii(tables) && AllSlugs(parts)
    ensures NormalizeParts(tables, parts) == parts
  {
    if parts != [] {
      SlugStaysTheSame(tables, parts[0]);
      SlugsStayTheSame(tables, parts[1..]);
    }
  }

  lemma {:induction false} NonEmptySame(parts: seq<string>)
    requires forall i :: 0 <= i < |parts| ==> parts[i] != ""
    ensures NonEmpty(parts) == parts
  {
    if parts != [] {
      NonEmptySame(parts[1..]);
    }
  }

  lemma {:induction false} JoinOfSlugs(parts: seq<string>)
    requires AllSlugs(parts) && parts != []
    ensures Join(parts, ".") != ""
    ensures forall i :: 0 <= i < |Join(parts, ".")| ==> IsWord(Join(parts, ".")[i]) || Join(parts, ".")[i] == '.'
    ensures Trimmed(Join(parts, "."))
  {
    if |parts| > 1 { JoinOfSlugs(parts[1..]); }
  }

  lemma NormalizeSlugPath(tables: CharTables, path: seq<string>)
    requires AgreesOnAscii(tables) && AllSlugs(path) && path != []
    ensures NormalizePath(tables, Join(path, ".")) == Join(path, ".")
  {
    JoinOfSlugs(path);
    StripTrimmed(Join(path, "."));
    forall p | p in path ensures '.' !in p {
      var i :| 0 <= i < |path| && p == path[i];
      SlugHasNoDot(path[i]);
    }
    SplitJoin(path, '.');
    SlugsStayTheSame(tables, path);
  }

  lemma {:induction false} JoinEnds(parts: seq<string>)
    requires parts != [] && forall i :: 0 <= i < |parts| ==> parts[i] != "" && Trimmed(parts[i])
    ensures Trimmed(Join(parts, ".")) && Join(parts, ".") != ""
  {
    if |parts| > 1 { JoinEnds(parts[1..]); }
  }

  lemma SegmentsShape(d: DynamicScope)
    requires WellFormed(d)
    ensures forall i :: 0 <= i < |Segments(d)| ==>
              Segments(d)[i] != "" && Trimmed(Segments(d)[i]) && '.' !in Segments(d)[i]
  {
    var parts := Segments(d);
    forall i | 0 <= i < |parts| ensures parts[i] != "" && Trimmed(parts[i]) && '.' !in parts[i] {
      if i == 1 {
        SlugHasNoDot(d.domain);
      } else if 2 <= i && i - 2 < |d.path| {
        assert parts[i] == d.path[i - 2];
        SlugHasNoDot(d.path[i - 2]);
      }
    }
  }

  lemma AfterPrefix(d: DynamicScope)
    requires WellFormed(d)
    ensures "attr." <= Print(d)
    ensures Split(Strip(Print(d)[5..]), '.') == Segments(d)[1..]
    ensures NonEmpty(Segments(d)[1..]) == Segments(d)[1..]
  {
    SegmentsShape(d);
    var tail := Segments(d)[1..];
    assert Segments(d) == ["attr"] + tail;
    assert Print(d) == "attr" + "." + Join(tail, ".");
    assert Print(d)[5..] == Join(tail, ".");
    assert forall i :: 0 <= i < |tail| ==> tail[i] == Segments(d)[i + 1];
    JoinEnds(tail);
    StripTrimmed(Join(tail, "."));
    SplitJoin(tail, '.');
    NonEmptySame(tail);
  }

  /** How the parser reads a well-formed scope: its domain, its dotted path (none for a
      domain wildcard) and its wildcard flag. */
  function Reading(d: DynamicScope): ParsedScope {
    ParsedScope(Some(d.domain), if d.path == [] then None else Some(Join(d.path, ".")), d.wildcard)
  }

  lemma PathOfParts(d: DynamicScope, parts: seq<string>)
    requires WellFormed(d) && d.path != []
    requires parts == [d.domain] + d.path + (if d.wildcard then ["*"] else [])
    ensures parts[|parts| - 1] == "*" <==> d.wildcard
    ensures d.path == if d.wildcard then parts[1..|parts| - 1] else parts[1..]
  {
    if !d.wildcard {
      assert parts[|parts| - 1] == d.path[|d.path| - 1];
      SlugHasNoDot(parts[|parts| - 1]);
    }
  }

  lemma ParseOwnParts(tables: CharTables, d: DynamicScope, parts: seq<string>)
    requires AgreesOnAscii(tables) && WellFormed(d)
    requires parts == [d.domain] + d.path + (if d.wildcard then ["*"] else [])
    ensures ParseParts(tables, parts) == Reading(d)
  {
    SlugStaysTheSame(tables, d.domain);
    if d.path != [] {
      NormalizeSlugPath(tables, d.path);
      JoinOfSlugs(d.path);
      PathOfParts(d, parts);
    }
  }

  lemma ParsePrinted(tables: CharTables, d: DynamicScope)
    requires AgreesOnAscii(tables) && WellFormed(d)
    ensures ParseScope(tables, Print(d)) == Reading(d)
  {
    AfterPrefix(d);
    var parts := Segments(d)[1..];
    assert parts == [d.domain] + d.path + (if d.wildcard then ["*"] else []);
    ParseOwnParts(tables, d, parts);
  }

  // ------------------------------------------------------------------
  // Matching is inclusion of data paths
  // ------------------------------------------------------------------

  /** The data a scope stands for: one path, or every path below a prefix. */
  predicate Covers(d: DynamicScope, domain: string, path: seq<string>) {
    domain == d.domain && path != [] && AllSlugs(path) && (if d.wildcard then d.path <= path else path == d.path)
  }

  ghost predicate Includes(wide: DynamicScope, narrow: DynamicScope) {
    forall domain: string, path: seq<string> :: Covers(narrow, domain, path) ==> Covers(wide, domain, path)
  }

  /** Inclusion read off the two structures. */
  predicate Below(wide: DynamicScope, narrow: DynamicScope) {
    && wide.domain == narrow.domain
    && (if wide.wildcard then wide.path <= narrow.path else wide == narrow)
  }

  lemma IncludesIsBelow(wide: DynamicScope, narrow: DynamicScope)
    requires WellFormed(wide) && WellFormed(narrow)
    ensures Includes(wide, narrow) <==> Below(wide, narrow)
  {
    if Includes(wide, narrow) {
      var a, b := narrow.path + ["a"], narrow.path + ["b"];
      if narrow.wildcard {
        assert Covers(narrow, narrow.domain, a) && Covers(narrow, narrow.domain, b);
        assert Covers(wide, narrow.domain, a) && Covers(wide, narrow.domain, b);
        assert a[|narrow.path|] != b[|narrow.path|];
        if wide.wildcard && |wide.path| > |narrow.path| {
          assert false;
        }
        if wide.wildcard {
          assert wide.path == a[..|wide.path|];
          assert a[..|wide.path|] == narrow.path[..|wide.path|];
        }
      } else {
        assert Covers(narrow, narrow.domain, narrow.path);
        assert Covers(wide, narrow.domain, narrow.path);
      }
    }
    if Below(wide, narrow) {
      forall domain, path | Covers(narrow, domain, path) ensures Covers(wide, domain, path) {
        if wide.wildcard && narrow.wildcard {
          assert path[..|wide.path|] == narrow.path[..|wide.path|];
        }
      }
    }
  }

  lemma JoinPrefix(xs: seq<string>, ys: seq<string>)
    requires xs != [] && ys != [] && AllSlugs(xs) && AllSlugs(ys)
    ensures Join(xs, ".") == Join(ys, ".") || Join(xs, ".") + "." <= Join(ys, ".") <==> xs <= ys
  {
    var x, y := Join(xs, "."), Join(ys, ".");
    NoDots(xs);
    NoDots(ys);
    SplitJoin(xs, '.');
    SplitJoin(ys, '.');
    if x + "." <= y {
      var rest := y[|x| + 1..];
      assert y == x + ['.'] + rest;
      SplitWhole(x, rest);
      assert ys == xs + Split(rest, '.');
    }
    if xs <= ys {
      if xs != ys {
        var more := ys[|xs|..];
        assert ys == xs + more;
        JoinAppend(xs, more);
      }
    }
  }

  lemma NoDots(parts: seq<string>)
    requires AllSlugs(parts)
    ensures forall p :: p in parts ==> '.' !in p
  {
    forall p | p in parts ensures '.' !in p {
      var i :| 0 <= i < |parts| && p == parts[i];
      SlugHasNoDot(parts[i]);
    }
  }

  lemma {:induction false} SplitWhole(a: string, b: string)
    ensures Split(a + ['.'] + b, '.') == Split(a, '.') + Split(b, '.')
  {
    var s := a + ['.'] + b;
    if a == "" {
      assert s[1..] == b;
    } else {
      assert s[1..] == a[1..] + ['.'] + b;
      SplitWhole(a[1..], b);
    }
  }

  lemma {:induction false} JoinAppend(xs: seq<string>, ys: seq<string>)
    requires xs != [] && ys != []
    ensures Join(xs + ys, ".") == Join(xs, ".") + "." + Join(ys, ".")
  {
    if |xs| == 1 {
      assert (xs + ys)[1..] == ys;
    } else {
      assert (xs + ys)[1..] == xs[1..] + ys;
      JoinAppend(xs[1..], ys);
    }
  }

  lemma PrintInjective(a: DynamicScope, b: DynamicScope)
    requires WellFormed(a) && WellFormed(b)
    ensures Print(a) == Print(b) <==> a == b
  {
    ParsePrint(a);
    ParsePrint(b);
  }

  lemma ReadingsMatch(wide: DynamicScope, narrow: DynamicScope)
    requires WellFormed(wide) && WellFormed(narrow)
    ensures ParsedMatches(Reading(wide), Reading(narrow), narrow == wide) <==> Below(wide, narrow)
  {
    if wide.path != [] && narrow.path != [] { JoinPrefix(wide.path, narrow.path); }
  }

  lemma MatchesIsBelow(tables: CharTables, wide: DynamicScope, narrow: DynamicScope)
    requires AgreesOnAscii(tables) && WellFormed(wide) && WellFormed(narrow)
    ensures MatchesWildcard(tables, Print(narrow), Print(wide)) <==> Below(wide, narrow)
  {
    ParsePrinted(tables, wide);
    ParsePrinted(tables, narrow);
    PrintInjective(wide, narrow);
    ReadingsMatch(wide, narrow);
  }

  /** scope_matches grants a dynamic request exactly when every data path the request
      stands for is one the grant stands for. */
  lemma MatchesIsInclusion(tables: CharTables, granted: DynamicScope, requested: DynamicScope)
    requires AgreesOnAscii(tables) && WellFormed(granted) && WellFormed(requested)
    ensures ScopeMatches(tables, Print(granted), Print(requested)) <==> Includes(granted, requested)
  {
    AfterPrefix(granted);
    AfterPrefix(requested);
    AttrIsNotReserved(Print(granted));
    AttrIsNotReserved(Print(requested));
    MatchesIsBelow(tables, granted, requested);
    IncludesIsBelow(granted, requested);
    PrintInjective(granted, requested);
  }

  // ------------------------------------------------------------------
  // The two access checks
  // ------------------------------------------------------------------

  lemma PrintedIsDynamic(d: DynamicScope)
    requires WellFormed(d)
    ensures IsDynamicScope(Print(d))
  {
    SegmentsShape(d);
    JoinEnds(Segments(d));
    StripTrimmed(Print(d));
    ScopeToPattern(d);
  }

  lemma MatchesForAttr(tables: CharTables, g: string, r: string)
    requires "attr." <= r
    ensures ScopeMatches(tables, g, r)
       <==> g == r || g == "vault.owner" || g == "pkm.read" || MatchesWildcard(tables, r, g)
  {
    AttrIsNotReserved(r);
    if "attr." <= g { AttrIsNotReserved(g); }
    VaultOwnerIsActive();
    PkmReadIsActive();
  }

  lemma VaultOwnerIsActive()
    ensures "vault.owner" !in RETIRED && !("attr." <= "vault.owner")
  {
    assert "vault.owner"[0] == 'v';
    assert forall t :: t in RETIRED ==> t[0] != 'v';
  }

  lemma PkmReadIsActive()
    ensures "pkm.read" !in RETIRED && !("attr." <= "pkm.read")
  {
    assert |"pkm.read"| == 8;
    assert forall t :: t in RETIRED ==> |t| > 8;
    assert "pkm.read"[0] == 'p';
  }

  /** Whether some grant of a list satisfies the request, by scope_matches. */
  ghost predicate Satisfied(tables: CharTables, requested: string, granted: seq<string>) {
    exists g :: g in granted && ScopeMatches(tables, g, requested)
  }

  ghost predicate SomeWildcard(tables: CharTables, requested: string, granted: seq<string>) {
    exists g :: g in granted && MatchesWildcard(tables, requested, g)
  }

  /** check_access alone grants: a retired request that is itself among the grants, or comes
      with vault.owner. */
  predicate OnlyCheckAccess(requested: string, granted: seq<string>) {
    requested in RETIRED && ("vault.owner" in granted || requested in granted)
  }

  /** scope_matches alone grants: an attr request that is not granted outright and, if it is
      dynamic, rests on pkm.read alone, or else on pkm.read or on a wildcard that check_access
      does not try. */
  ghost predicate OnlyScopeMatches(tables: CharTables, requested: string, granted: seq<string>) {
    && "attr." <= requested && "vault.owner" !in granted && requested !in granted
    && (if IsDynamicScope(requested)
        then "pkm.read" in granted && !SomeWildcard(tables, requested, granted)
        else "pkm.read" in granted || SomeWildcard(tables, requested, granted))
  }

  lemma NotAttrMatchesItself(tables: CharTables, requested: string, g: string)
    requires !("attr." <= requested)
    ensures MatchesWildcard(tables, requested, g) <==> requested == g
  {
  }

  lemma SatisfiedAttr(tables: CharTables, requested: string, granted: seq<string>)
    requires "attr." <= requested
    ensures Satisfied(tables, requested, granted)
       <==> "vault.owner" in granted || requested in granted || "pkm.read" in granted
            || SomeWildcard(tables, requested, granted)
  {
    forall g ensures ScopeMatches(tables, g, requested)
                <==> g == requested || g == "vault.owner" || g == "pkm.read" || MatchesWildcard(tables, requested, g) {
      MatchesForAttr(tables, g, requested);
    }
    if "vault.owner" in granted || requested in granted || "pkm.read" in granted || SomeWildcard(tables, requested, granted) {
      var g :| g in granted
               && (g == requested || g == "vault.owner" || g == "pkm.read" || MatchesWildcard(tables, requested, g));
      assert ScopeMatches(tables, g, requested);
    }
  }

  lemma SatisfiedOther(tables: CharTables, requested: string, granted: seq<string>)
    requires !("attr." <= requested)
    ensures Satisfied(tables, requested, granted)
       <==> requested !in RETIRED && ("vault.owner" in granted || requested in granted)
  {
    VaultOwnerIsActive();
    if requested !in RETIRED {
      if "vault.owner" in granted { assert ScopeMatches(tables, "vault.owner", requested); }
      if requested in granted { assert ScopeMatches(tables, requested, requested); }
    }
  }

  lemma CheckAccessOther(tables: CharTables, requested: string, granted: seq<string>)
    requires !("attr." <= requested)
    ensures CheckAccess(tables, requested, granted) <==> "vault.owner" in granted || requested in granted
  {
    if CheckAccess(tables, requested, granted) && "vault.owner" !in granted && requested !in granted {
      var g :| g in granted && MatchesWildcard(tables, requested, g);
      NotAttrMatchesItself(tables, requested, g);
    }
  }

  /** For every request and every list of grants: the two checks agree outside those two cases,
      and in each of them the one that is named grants and the other does not. */
  lemma AccessChecksAgree(tables: CharTables, requested: string, granted: seq<string>)
    ensures (Satisfied(tables, requested, granted) <==> CheckAccess(tables, requested, granted))
       <==> !OnlyCheckAccess(requested, granted) && !OnlyScopeMatches(tables, requested, granted)
    ensures OnlyCheckAccess(requested, granted) ==>
              CheckAccess(tables, requested, granted) && !Satisfied(tables, requested, granted)
    ensures OnlyScopeMatches(tables, requested, granted) ==>
              Satisfied(tables, requested, granted) && !CheckAccess(tables, requested, granted)
  {
    if "attr." <= requested {
      AttrIsNotReserved(requested);
      SatisfiedAttr(tables, requested, granted);
    } else {
      SatisfiedOther(tables, requested, granted);
      CheckAccessOther(tables, requested, granted);
    }
  }

  /** check_access grants every retired scope that was ever granted, and all of them with
      vault.owner; scope_matches grants none. */
  lemma RetiredIsGranted(tables: CharTables, retired: string)
    requires retired in RETIRED
    ensures CheckAccess(tables, retired, [retired]) && !Satisfied(tables, retired, [retired])
    ensures CheckAccess(tables, retired, ["vault.owner"]) && !Satisfied(tables, retired, ["vault.owner"])
  {
    AccessChecksAgree(tables, retired, [retired]);
    AccessChecksAgree(tables, retired, ["vault.owner"]);
  }

  lemma DomainParses(tables: CharTables, domain: string)
    requires AgreesOnAscii(tables) && IsSlug(domain)
    ensures ParseScope(tables, "attr." + domain) == ParsedScope(Some(domain), None, false)
  {
    assert ("attr." + domain)[5..] == domain;
    SlugStaysTheSame(tables, domain);
    SlugHasNoDot(domain);
    SplitNoSep(domain, '.');
    NonEmptySame([domain]);
  }

  lemma DomainIsNotDynamic(domain: string)
    requires IsSlug(domain)
    ensures !IsDynamicScope("attr." + domain)
  {
    var s := "attr." + domain;
    assert s[|s| - 1] == domain[|domain| - 1];
    StripTrimmed(s);
    SlugHasNoDot(domain);
    var head := "attr";
    assert s == head + ['.'] + domain;
    SplitAppend(head, '.', domain);
    SplitNoSep(domain, '.');
    DynamicPatternMeaning(s);
  }

  lemma OnlyByWildcard(tables: CharTables, requested: string, g: string)
    requires "attr." <= requested && "attr." <= g && requested != g
    requires !IsDynamicScope(requested) && MatchesWildcard(tables, requested, g)
    ensures Satisfied(tables, requested, [g]) && !CheckAccess(tables, requested, [g])
  {
    AttrIsNotReserved(g);
    assert g in [g] && "vault.owner" !in [g] && requested !in [g];
    assert SomeWildcard(tables, requested, [g]);
    AccessChecksAgree(tables, requested, [g]);
  }

  /** A domain alone is no dynamic scope, and scope_matches lets the domain's wildcard satisfy
      it, where check_access does not. */
  lemma DomainAloneDiffers(tables: CharTables, domain: string)
    requires AgreesOnAscii(tables) && IsSlug(domain)
    ensures var wildcard := Print(DynamicScope(domain, [], true));
            Satisfied(tables, "attr." + domain, [wildcard]) && !CheckAccess(tables, "attr." + domain, [wildcard])
  {
    var d := DynamicScope(domain, [], true);
    DomainParses(tables, domain);
    ParsePrinted(tables, d);
    AfterPrefix(d);
    DomainIsNotDynamic(domain);
    OnlyByWildcard(tables, "attr." + domain, Print(d));
  }
}

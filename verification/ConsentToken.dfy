/** Consent tokens (hushh_mcp/consent/token.py, scripts/emit_hct_golden_vectors.py):
    issuing, validating, and the revocation cache consulted before every validation. */
module ConsentToken {
  import opened Text
  import opened Encoding
  import opened ScopeGrammar
  import opened ScopeAuthority

  /** HMAC-SHA256 under the signing key, as lowercase hexadecimal. */
  type Signer = string -> string

  predicate IsHex(c: char) {
    IsDigit(c) || 'a' <= c <= 'f'
  }

  ghost predicate HexDigests(sign: Signer) {
    forall s: string :: |sign(s)| == 64 && forall i :: 0 <= i < 64 ==> IsHex(sign(s)[i])
  }

  datatype Claims = Claims(
    userId: string, agentId: string, scope: string, issuedAt: int, expiresAt: int, commercial: bool)

  // ------------------------------------------------------------------
  // Building a token
  // ------------------------------------------------------------------

  function Times(c: Claims): seq<string> {
    [IntText(c.issuedAt), IntText(c.expiresAt)] + (if c.commercial then ["commercial"] else [])
  }

  function Fields(c: Claims): seq<string> {
    [c.userId] + ([c.agentId] + ([c.scope] + Times(c)))
  }

  /** The signed payload: five fields, or six ending in the literal `commercial`. */
  function Payload(c: Claims): string {
    Join(Fields(c), "|")
  }

  function BuildToken(sign: Signer, c: Claims): string {
    "HCT:" + EncodeBase64(EncodeUtf8(Payload(c))) + "." + sign(Payload(c))
  }

  /** ConsentScope.validate(scope) without a user. */
  ghost predicate IsActiveScope(tables: CharTables, scope: string) {
    scope in ACTIVE_RESERVED || (IsDynamicScope(scope) && ParseScope(tables, scope).domain.Some?)
  }

  /** issue_token; None is its ValueError. `explicitExpiry` is expires_at_ms. */
  ghost function IssueToken(sign: Signer, tables: CharTables, userId: string, agentId: string, scope: string,
                            now: int, expiresIn: int, explicitExpiry: Option<int>, commercial: bool)
    : Option<(Claims, string)>
  {
    var expiresAt := if explicitExpiry.Some? then explicitExpiry.value else now + expiresIn;
    if explicitExpiry.Some? && expiresAt <= now then None
    else if scope in RETIRED || !IsActiveScope(tables, scope) then None
    else
      var c := Claims(userId, agentId, scope, now, expiresAt, commercial);
      Some((c, BuildToken(sign, c)))
  }

  // ------------------------------------------------------------------
  // Reading a token
  // ------------------------------------------------------------------

  /** The three texts of prefix:encoded.signature, each separator being the first one. */
  function Frame(token: string): Option<(string, string, string)> {
    match SplitOnce(token, ':')
    case None => None
    case Some((prefix, signed)) =>
      match SplitOnce(signed, '.')
      case None => None
      case Some((encoded, signature)) => Some((prefix, encoded, signature))
  }

  /** base64.urlsafe_b64decode(encoded).decode(); None is binascii.Error or UnicodeDecodeError. */
  function DecodePayload(encoded: string): Option<string> {
    match DecodeBase64(encoded)
    case None => None
    case Some(bytes) => DecodeUtf8(bytes)
  }

  datatype Reason =
    | Revoked | Malformed | InvalidPrefix | InvalidSignature | Expired | ScopeRetired
    | ScopeMismatch | CommercialRequired | NonCommercialRequired

  datatype Validation =
    | Valid(claims: Claims, signature: string)
    | Invalid(reason: Reason)
    | Raises  // hmac.compare_digest refuses text outside ASCII

  /** Whether the payload has one of the two shapes: five fields, or six ending in `commercial`. */
  predicate IsPayload(parts: seq<string>) {
    |parts| == 5 || (|parts| == 6 && parts[5] == "commercial")
  }

  /** _scope_str_to_enum raises on a static scope it does not know. */
  predicate HasEnum(scope: string) {
    scope in ACTIVE_RESERVED || "attr." <= scope
  }

  predicate IsAscii(s: string) {
    forall i :: 0 <= i < |s| ==> s[i] as int < 128
  }

  /** The checks after the signature, in order. An empty `expected` asks for no scope. */
  function CheckClaims(tables: CharTables, parts: seq<string>, signature: string, expected: string,
                       commercial: Option<bool>, now: int): Validation
    requires IsPayload(parts)
  {
    match ParseInt(parts[4])
    case None => Invalid(Malformed)
    case Some(expiresAt) =>
      if now >= expiresAt then Invalid(Expired)
      else if parts[2] in RETIRED then Invalid(ScopeRetired)
      else if !HasEnum(parts[2]) then Invalid(Malformed)
      else if expected != "" && !ScopeMatches(tables, parts[2], expected) then Invalid(ScopeMismatch)
      else if commercial == Some(true) && |parts| == 5 then Invalid(CommercialRequired)
      else if commercial == Some(false) && |parts| == 6 then Invalid(NonCommercialRequired)
      else
        match ParseInt(parts[3])
        case None => Invalid(Malformed)
        case Some(issuedAt) =>
          Valid(Claims(parts[0], parts[1], parts[2], issuedAt, expiresAt, |parts| == 6), signature)
  }

  function CheckPayload(sign: Signer, tables: CharTables, decoded: string, signature: string,
                        expected: string, commercial: Option<bool>, now: int): Validation {
    var parts := Split(decoded, '|');
    if !IsPayload(parts) then Invalid(Malformed)
    else if !IsAscii(signature) then Raises
    else if signature != sign(Join(parts, "|")) then Invalid(InvalidSignature)
    else CheckClaims(tables, parts, signature, expected, commercial, now)
  }

  /** validate_token, given whether the revocation cache holds the token. */
  function Validate(sign: Signer, tables: CharTables, revoked: bool, token: string,
                    expected: string, commercial: Option<bool>, now: int): Validation {
    if revoked then Invalid(Revoked)
    else
      match Frame(token)
      case None => Invalid(Malformed)
      case Some((prefix, encoded, signature)) =>
        if prefix != "HCT" then Invalid(InvalidPrefix)
        else
          match DecodePayload(encoded)
          case None => Invalid(Malformed)
          case Some(decoded) => CheckPayload(sign, tables, decoded, signature, expected, commercial, now)
  }

  // ------------------------------------------------------------------
  // Unique decodability
  // ------------------------------------------------------------------

  lemma FrameBuilt(sign: Signer, c: Claims)
    ensures Frame(BuildToken(sign, c)) == Some(("HCT", EncodeBase64(EncodeUtf8(Payload(c))), sign(Payload(c))))
    ensures DecodePayload(EncodeBase64(EncodeUtf8(Payload(c)))) == Some(Payload(c))
  {
    var encoded := EncodeBase64(EncodeUtf8(Payload(c)));
    var signed := encoded + ['.'] + sign(Payload(c));
    assert BuildToken(sign, c) == "HCT" + [':'] + signed;
    SplitOnceAt("HCT", ':', signed);
    SplitOnceAt(encoded, '.', sign(Payload(c)));
    Base64RoundTrip(EncodeUtf8(Payload(c)));
    Utf8RoundTrip(Payload(c));
  }

  predicate PipeFree(c: Claims) {
    '|' !in c.userId && '|' !in c.agentId && '|' !in c.scope
  }

  lemma IntTextIsAField(n: int)
    ensures '|' !in IntText(n) && IntText(n) != "commercial"
  {
    IntTextChars(n);
    assert !IsDigit("commercial"[0]);
  }

  lemma PayloadParts(c: Claims)
    requires PipeFree(c)
    ensures Split(Payload(c), '|') == Fields(c)
  {
    IntTextIsAField(c.issuedAt);
    IntTextIsAField(c.expiresAt);
    SplitJoin(Fields(c), '|');
  }

  /** Reading a token back without checking it: the claims and the signature. */
  function ReadToken(token: string): Option<(Claims, string)> {
    match Frame(token)
    case None => None
    case Some((prefix, encoded, signature)) =>
      match DecodePayload(encoded)
      case None => None
      case Some(decoded) =>
        var parts := Split(decoded, '|');
        if prefix != "HCT" || !IsPayload(parts) then None
        else
          match (ParseInt(parts[3]), ParseInt(parts[4]))
          case (Some(issuedAt), Some(expiresAt)) =>
            Some((Claims(parts[0], parts[1], parts[2], issuedAt, expiresAt, |parts| == 6), signature))
          case _ => None
  }

  /** The number of fields grows by one for each separator inside a name. */
  lemma {:induction false} SplitCount(s: string, t: string)
    ensures |Split(s + ['|'] + t, '|')| == |Split(s, '|')| + |Split(t, '|')|
    ensures Split(s + ['|'] + t, '|')[|Split(s, '|')|..] == Split(t, '|')
  {
    var whole := s + ['|'] + t;
    if s == "" {
      assert whole[1..] == t;
    } else {
      assert whole[1..] == s[1..] + ['|'] + t;
      SplitCount(s[1..], t);
      var rest := Split(s[1..] + ['|'] + t, '|');
      var parts := Split(whole, '|');
      if s[0] == '|' {
        assert parts == [""] + rest;
        assert parts[|Split(s, '|')|..] == rest[|Split(s[1..], '|')|..];
      } else {
        assert parts == [[s[0]] + rest[0]] + rest[1..];
        assert |Split(s, '|')| == |Split(s[1..], '|')|;
        assert parts[|Split(s, '|')|..] == rest[|Split(s[1..], '|')|..];
      }
    }
  }

  lemma {:induction false} SplitHasSep(s: string)
    ensures |Split(s, '|')| == 1 <==> '|' !in s
  {
    if '|' !in s {
      SplitNoSep(s, '|');
    } else if s[0] != '|' {
      assert s == [s[0]] + s[1..];
      SplitHasSep(s[1..]);
    }
  }

  lemma JoinCons(first: string, rest: seq<string>)
    requires rest != []
    ensures Join([first] + rest, "|") == first + ['|'] + Join(rest, "|")
  {
    assert ([first] + rest)[1..] == rest;
  }

  function LastOf(fields: seq<string>): string {
    if fields == [] then "" else fields[|fields| - 1]
  }

  function FieldCount(parts: seq<string>): nat {
    |Split(Join(parts, "|"), '|')|
  }

  function LastField(parts: seq<string>): string {
    LastOf(Split(Join(parts, "|"), '|'))
  }

  lemma LastOfRest(parts: seq<string>, n: nat)
    requires n < |parts|
    ensures LastOf(parts[n..]) == LastOf(parts)
  {
  }

  lemma SplitText(name: string, text: string, whole: string)
    requires whole == name + ['|'] + text
    ensures |Split(whole, '|')| == |Split(name, '|')| + |Split(text, '|')|
    ensures LastOf(Split(whole, '|')) == LastOf(Split(text, '|'))
  {
    SplitCount(name, text);
    LastOfRest(Split(whole, '|'), |Split(name, '|')|);
  }

  /** Prefixing a name adds its own fields in front and keeps the last one. */
  lemma SplitPrefixed(name: string, rest: seq<string>)
    requires rest != []
    ensures FieldCount([name] + rest) == |Split(name, '|')| + FieldCount(rest)
    ensures LastField([name] + rest) == LastField(rest)
  {
    JoinCons(name, rest);
    SplitText(name, Join(rest, "|"), Join([name] + rest, "|"));
  }

  lemma TimesParts(c: Claims)
    ensures FieldCount(Times(c)) == |Times(c)|
    ensures !c.commercial ==> LastField(Times(c)) != "commercial"
  {
    IntTextIsAField(c.issuedAt);
    IntTextIsAField(c.expiresAt);
    SplitJoin(Times(c), '|');
  }

  lemma ScopeAndTimes(c: Claims)
    ensures FieldCount([c.scope] + Times(c)) == |Split(c.scope, '|')| + |Times(c)|
    ensures !c.commercial ==> LastField([c.scope] + Times(c)) != "commercial"
  {
    TimesParts(c);
    SplitPrefixed(c.scope, Times(c));
  }

  /** The fields of a payload whose names may hold separators. */
  lemma PayloadCount(c: Claims)
    ensures FieldCount(Fields(c))
         == |Split(c.userId, '|')| + |Split(c.agentId, '|')| + |Split(c.scope, '|')| + |Times(c)|
    ensures !c.commercial ==> LastField(Fields(c)) != "commercial"
  {
    ScopeAndTimes(c);
    var scopeAndTimes := [c.scope] + Times(c);
    SplitPrefixed(c.agentId, scopeAndTimes);
    SplitPrefixed(c.userId, [c.agentId] + scopeAndTimes);
  }

  lemma PayloadShape(c: Claims)
    ensures IsPayload(Split(Payload(c), '|')) <==> PipeFree(c)
  {
    PayloadCount(c);
    SplitHasSep(c.userId);
    SplitHasSep(c.agentId);
    SplitHasSep(c.scope);
    if PipeFree(c) { PayloadParts(c); }
  }

  /** Reading undoes building on exactly the claims whose three names hold no separator. */
  lemma UniquelyDecodable(sign: Signer, c: Claims)
    ensures ReadToken(BuildToken(sign, c)) == Some((c, sign(Payload(c)))) <==> PipeFree(c)
    ensures !PipeFree(c) ==> ReadToken(BuildToken(sign, c)) == None
  {
    FrameBuilt(sign, c);
    PayloadShape(c);
    if PipeFree(c) {
      PayloadParts(c);
      ParseIntText(c.issuedAt);
      ParseIntText(c.expiresAt);
    }
  }

  /** Different claims never share a token while their names hold no separator ... */
  lemma BuildInjective(sign: Signer, a: Claims, b: Claims)
    requires PipeFree(a) && PipeFree(b)
    ensures BuildToken(sign, a) == BuildToken(sign, b) <==> a == b
  {
    UniquelyDecodable(sign, a);
    UniquelyDecodable(sign, b);
  }

  /** ... and do share one when a separator can move between two names. */
  lemma SeparatorCollision(sign: Signer)
    ensures var a := Claims("u|v", "w", "pkm.read", 1, 2, false);
            var b := Claims("u", "v|w", "pkm.read", 1, 2, false);
            a != b && BuildToken(sign, a) == BuildToken(sign, b)
  {
    var a := Claims("u|v", "w", "pkm.read", 1, 2, false);
    var b := Claims("u", "v|w", "pkm.read", 1, 2, false);
    var tail := ["pkm.read", IntText(1), IntText(2)];
    assert Fields(a) == ["u|v"] + (["w"] + tail) && Fields(b) == ["u"] + (["v|w"] + tail);
    assert (["w"] + tail)[1..] == tail && (["v|w"] + tail)[1..] == tail;
    assert (["u|v"] + (["w"] + tail))[1..] == ["w"] + tail;
    assert (["u"] + (["v|w"] + tail))[1..] == ["v|w"] + tail;
    assert "u|v" + "|" + ("w" + "|" + Join(tail, "|")) == "u" + "|" + ("v|w" + "|" + Join(tail, "|"));
    assert Payload(a) == Payload(b);
  }

  // ------------------------------------------------------------------
  // Issue, then validate
  // ------------------------------------------------------------------

  lemma ReservedHaveNoPipe(scope: string)
    requires scope in ACTIVE_RESERVED
    ensures '|' !in scope
  {
  }

  lemma DynamicHasNoPipe(d: DynamicScope)
    requires WellFormed(d)
    ensures '|' !in Print(d)
  {
    PrintText(d);
    DottedHasNoPipe(d.path);
  }

  lemma ActiveScopeShape(tables: CharTables, scope: string)
    requires IsActiveScope(tables, scope)
    ensures '|' !in scope && HasEnum(scope)
  {
    if scope in ACTIVE_RESERVED {
      ReservedHaveNoPipe(scope);
    } else {
      var d := PatternToScope(Strip(scope));
      DynamicHasNoPipe(d);
      if '|' in scope { StripKeeps(scope, '|'); }
    }
  }

  lemma {:induction false} DottedHasNoPipe(parts: seq<string>)
    requires AllSlugs(parts)
    ensures '|' !in Dotted(parts)
  {
    if parts != [] { DottedHasNoPipe(parts[1..]); }
  }

  lemma HexIsAscii(sign: Signer, s: string)
    requires HexDigests(sign)
    ensures IsAscii(sign(s))
  {
  }

  /** What the checks say of given claims. */
  function ClaimsOutcome(tables: CharTables, c: Claims, signature: string, expected: string,
                         commercial: Option<bool>, now: int): Validation {
    if now >= c.expiresAt then Invalid(Expired)
    else if expected != "" && !ScopeMatches(tables, c.scope, expected) then Invalid(ScopeMismatch)
    else if commercial == Some(true) && !c.commercial then Invalid(CommercialRequired)
    else if commercial == Some(false) && c.commercial then Invalid(NonCommercialRequired)
    else Valid(c, signature)
  }

  function ClaimsVerdict(sign: Signer, tables: CharTables, c: Claims, expected: string,
                         commercial: Option<bool>, now: int): Validation {
    ClaimsOutcome(tables, c, sign(Payload(c)), expected, commercial, now)
  }

  lemma CheckParsed(tables: CharTables, parts: seq<string>, signature: string, c: Claims, expected: string,
                    commercial: Option<bool>, now: int)
    requires IsPayload(parts) && ParseInt(parts[3]) == Some(c.issuedAt) && ParseInt(parts[4]) == Some(c.expiresAt)
    requires c == Claims(parts[0], parts[1], parts[2], c.issuedAt, c.expiresAt, |parts| == 6)
    requires c.scope !in RETIRED && HasEnum(c.scope)
    ensures CheckClaims(tables, parts, signature, expected, commercial, now)
         == ClaimsOutcome(tables, c, signature, expected, commercial, now)
  {
  }

  lemma CheckOwnClaims(sign: Signer, tables: CharTables, c: Claims, expected: string,
                       commercial: Option<bool>, now: int)
    requires PipeFree(c) && c.scope !in RETIRED && HasEnum(c.scope)
    ensures CheckClaims(tables, Fields(c), sign(Payload(c)), expected, commercial, now)
         == ClaimsVerdict(sign, tables, c, expected, commercial, now)
  {
    ParseIntText(c.issuedAt);
    ParseIntText(c.expiresAt);
    FieldsOf(c);
    CheckParsed(tables, Fields(c), sign(Payload(c)), c, expected, commercial, now);
  }

  lemma FieldsOf(c: Claims)
    ensures Fields(c) == [c.userId, c.agentId, c.scope, IntText(c.issuedAt), IntText(c.expiresAt)]
                         + (if c.commercial then ["commercial"] else [])
  {
  }

  lemma CheckOwnPayload(sign: Signer, tables: CharTables, c: Claims, expected: string,
                        commercial: Option<bool>, now: int)
    requires HexDigests(sign) && c.scope !in RETIRED && HasEnum(c.scope)
    ensures CheckPayload(sign, tables, Payload(c), sign(Payload(c)), expected, commercial, now)
         == if PipeFree(c) then ClaimsVerdict(sign, tables, c, expected, commercial, now) else Invalid(Malformed)
  {
    PayloadShape(c);
    if PipeFree(c) {
      PayloadParts(c);
      HexIsAscii(sign, Payload(c));
      CheckOwnClaims(sign, tables, c, expected, commercial, now);
    }
  }

  lemma {:induction false} RStripTail(s: string, k: nat)
    requires k <= |RStrip(s)| <= |s|
    ensures RStrip(s[k..]) == RStrip(s)[k..]
  {
    if s != "" && IsSpace(s[|s| - 1]) {
      assert s[..|s| - 1][k..] == s[k..][..|s[k..]| - 1];
      RStripTail(s[..|s| - 1], k);
    } else {
      assert s[k..] == "" || s[k..][|s[k..]| - 1] == s[|s| - 1];
    }
  }

  /** Trailing blanks make no difference to what follows the prefix. */
  lemma AfterAttr(scope: string)
    requires "attr." <= scope && "attr." <= Strip(scope)
    ensures Strip(scope[5..]) == Strip(Strip(scope)[5..])
  {
    assert scope[0] == 'a' && LStrip(scope) == scope;
    RStripEnds(scope);
    RStripTail(scope, 5);
    StripsTwice(scope[5..]);
  }

  lemma {:induction false} StripsTwice(s: string)
    ensures Strip(RStrip(s)) == Strip(s)
  {
    if s != "" && IsSpace(s[|s| - 1]) {
      StripsTwice(s[..|s| - 1]);
      DropLastSpace(s);
    }
  }

  lemma {:induction false} DropLastSpace(s: string)
    requires s != "" && IsSpace(s[|s| - 1])
    ensures Strip(s[..|s| - 1]) == Strip(s)
  {
    if IsSpace(s[0]) {
      if |s| > 1 {
        assert s[..|s| - 1][1..] == s[1..][..|s[1..]| - 1];
        DropLastSpace(s[1..]);
      }
    } else {
      assert LStrip(s) == s && s[..|s| - 1] != "" && LStrip(s[..|s| - 1]) == s[..|s| - 1];
    }
  }

  lemma DynamicHasDomain(tables: CharTables, scope: string, trimmed: string)
    requires AgreesOnAscii(tables) && trimmed == Strip(scope)
    requires "attr." <= scope && DynamicSegments(Split(trimmed, '.'))
    ensures ParseScope(tables, scope).domain.Some?
  {
    PrintParse(trimmed);
    var d := Parse(trimmed).value;
    AfterPrefix(d);
    AfterAttr(scope);
    SlugStaysTheSame(tables, d.domain);
    FirstPartIsDomain(tables, scope, Segments(d)[1..]);
  }

  lemma FirstPartIsDomain(tables: CharTables, scope: string, parts: seq<string>)
    requires "attr." <= scope && NonEmpty(Split(Strip(scope[5..]), '.')) == parts
    requires parts != [] && tables.lower(Strip(parts[0])) != ""
    ensures ParseScope(tables, scope).domain.Some?
  {
  }

  /** Which scopes ConsentScope.validate lets through: the reserved active ones, and those that
      start with the prefix and whose trimmed segments pass the check. */
  lemma ActiveScopes(tables: CharTables, scope: string)
    requires AgreesOnAscii(tables)
    ensures IsActiveScope(tables, scope)
       <==> scope in ACTIVE_RESERVED || ("attr." <= scope && DynamicSegments(Split(Strip(scope), '.')))
  {
    var trimmed := Strip(scope);
    DynamicPatternMeaning(trimmed);
    if "attr." <= scope && DynamicSegments(Split(trimmed, '.')) { DynamicHasDomain(tables, scope, trimmed); }
  }

  lemma IssuedExactly(sign: Signer, tables: CharTables, userId: string, agentId: string, scope: string, issued: int,
                      expiresIn: int, explicitExpiry: Option<int>, flag: bool)
    ensures IssueToken(sign, tables, userId, agentId, scope, issued, expiresIn, explicitExpiry, flag).Some?
       <==> (explicitExpiry.Some? ==> issued < explicitExpiry.value) && scope !in RETIRED && IsActiveScope(tables, scope)
  {
  }

  /** When a token is issued at all. */
  lemma WhenIssued(sign: Signer, tables: CharTables, userId: string, agentId: string, scope: string, issued: int,
                   expiresIn: int, explicitExpiry: Option<int>, flag: bool)
    requires AgreesOnAscii(tables)
    ensures IssueToken(sign, tables, userId, agentId, scope, issued, expiresIn, explicitExpiry, flag).Some?
       <==> (explicitExpiry.Some? ==> issued < explicitExpiry.value)
            && scope !in RETIRED
            && (scope in ACTIVE_RESERVED || ("attr." <= scope && DynamicSegments(Split(Strip(scope), '.'))))
  {
    ActiveScopes(tables, scope);
    IssuedExactly(sign, tables, userId, agentId, scope, issued, expiresIn, explicitExpiry, flag);
  }

  /** The whole verdict of validate_token on a token issue_token produced: it is refused
      outright when a name holds the separator, and otherwise exactly the expiry, the scope
      and the commercial gate decide, and acceptance returns the claims as issued. */
  lemma IssueThenValidate(sign: Signer, tables: CharTables, userId: string, agentId: string, scope: string,
                          issued: int, expiresIn: int, explicitExpiry: Option<int>, flag: bool,
                          expected: string, commercial: Option<bool>, now: int)
    requires HexDigests(sign)
    requires IssueToken(sign, tables, userId, agentId, scope, issued, expiresIn, explicitExpiry, flag).Some?
    ensures var token := IssueToken(sign, tables, userId, agentId, scope, issued, expiresIn, explicitExpiry, flag).value.1;
            var expiry := match explicitExpiry case Some(t) => t case None => issued + expiresIn;
            var c := Claims(userId, agentId, scope, issued, expiry, flag);
            Validate(sign, tables, false, token, expected, commercial, now) ==
            if '|' in userId || '|' in agentId then Invalid(Malformed)
            else if now >= expiry then Invalid(Expired)
            else if expected != "" && !ScopeMatches(tables, scope, expected) then Invalid(ScopeMismatch)
            else if commercial == Some(true) && !flag then Invalid(CommercialRequired)
            else if commercial == Some(false) && flag then Invalid(NonCommercialRequired)
            else Valid(c, sign(Payload(c)))
  {
    var (c, token) :=
      IssueToken(sign, tables, userId, agentId, scope, issued, expiresIn, explicitExpiry, flag).value;
    ActiveScopeShape(tables, scope);
    FrameBuilt(sign, c);
    CheckOwnPayload(sign, tables, c, expected, commercial, now);
  }

  /** What acceptance says about the payload that was checked. */
  ghost predicate Authentic(sign: Signer, tables: CharTables, decoded: string, signature: string,
                            claims: Claims, expected: string, commercial: Option<bool>, now: int) {
    var parts := Split(decoded, '|');
    && IsPayload(parts)
    && signature == sign(decoded)
    && claims == Claims(parts[0], parts[1], parts[2], claims.issuedAt, claims.expiresAt, |parts| == 6)
    && ParseInt(parts[3]) == Some(claims.issuedAt) && ParseInt(parts[4]) == Some(claims.expiresAt)
    && now < claims.expiresAt
    && claims.scope !in RETIRED
    && (expected != "" ==> ScopeMatches(tables, claims.scope, expected))
    && (commercial.Some? ==> claims.commercial == commercial.value)
  }

  lemma AcceptedPayload(sign: Signer, tables: CharTables, decoded: string, signature: string,
                        expected: string, commercial: Option<bool>, now: int)
    requires CheckPayload(sign, tables, decoded, signature, expected, commercial, now).Valid?
    ensures var v := CheckPayload(sign, tables, decoded, signature, expected, commercial, now);
            v.signature == signature
            && Authentic(sign, tables, decoded, signature, v.claims, expected, commercial, now)
  {
    JoinSplit(decoded, '|');
  }

  /** Whatever token is accepted, at any time and for any request: it was not revoked, it
      carries the signature of the very payload its claims are read from, it has not
      expired, and its scope is live and satisfies the request. */
  lemma AcceptedIsAuthentic(sign: Signer, tables: CharTables, revoked: bool, token: string,
                            expected: string, commercial: Option<bool>, now: int)
    requires Validate(sign, tables, revoked, token, expected, commercial, now).Valid?
    ensures !revoked && Frame(token).Some? && DecodePayload(Frame(token).value.1).Some?
    ensures var v := Validate(sign, tables, revoked, token, expected, commercial, now);
            && Authentic(sign, tables, DecodePayload(Frame(token).value.1).value, v.signature, v.claims,
                         expected, commercial, now)
            && ReadToken(token) == Some((v.claims, v.signature))
  {
    var (prefix, encoded, signature) := Frame(token).value;
    AcceptedPayload(sign, tables, DecodePayload(encoded).value, signature, expected, commercial, now);
  }

  lemma WhenClaimsPass(tables: CharTables, parts: seq<string>, signature: string, expected: string,
                       commercial: Option<bool>, now: int)
    requires IsPayload(parts)
    ensures CheckClaims(tables, parts, signature, expected, commercial, now).Valid?
       <==> ParseInt(parts[3]).Some? && ParseInt(parts[4]).Some? && now < ParseInt(parts[4]).value
            && parts[2] !in RETIRED && (parts[2] in ACTIVE_RESERVED || "attr." <= parts[2])
            && (expected == "" || ScopeMatches(tables, parts[2], expected))
            && (commercial.Some? ==> (commercial.value <==> |parts| == 6))
  {
  }

  lemma WhenPayloadPasses(sign: Signer, tables: CharTables, decoded: string, signature: string, expected: string,
                          commercial: Option<bool>, now: int)
    requires HexDigests(sign)
    ensures CheckPayload(sign, tables, decoded, signature, expected, commercial, now).Valid?
       <==> IsPayload(Split(decoded, '|')) && signature == sign(decoded)
            && CheckClaims(tables, Split(decoded, '|'), signature, expected, commercial, now).Valid?
  {
    JoinSplit(decoded, '|');
    HexIsAscii(sign, decoded);
  }

  /** Exactly which tokens are accepted: those with the prefix, whose payload decodes to five or six
      fields, that carry its signature, that have not expired, whose scope is known, not retired
      and satisfies the request, and that pass the commercial gate. */
  lemma WhenAccepted(sign: Signer, tables: CharTables, revoked: bool, token: string, expected: string,
                     commercial: Option<bool>, now: int)
    requires HexDigests(sign)
    ensures Validate(sign, tables, revoked, token, expected, commercial, now).Valid?
       <==> !revoked && SignedText(token).Some? && Frame(token).value.0 == "HCT"
            && var parts := Split(SignedText(token).value, '|');
               && (|parts| == 5 || (|parts| == 6 && parts[5] == "commercial"))
               && Frame(token).value.2 == sign(SignedText(token).value)
               && ParseInt(parts[3]).Some? && ParseInt(parts[4]).Some? && now < ParseInt(parts[4]).value
               && parts[2] !in RETIRED && (parts[2] in ACTIVE_RESERVED || "attr." <= parts[2])
               && (expected == "" || ScopeMatches(tables, parts[2], expected))
               && (commercial.Some? ==> (commercial.value <==> |parts| == 6))
  {
    if SignedText(token).Some? {
      var decoded, signature := SignedText(token).value, Frame(token).value.2;
      WhenPayloadPasses(sign, tables, decoded, signature, expected, commercial, now);
      if IsPayload(Split(decoded, '|')) {
        WhenClaimsPass(tables, Split(decoded, '|'), signature, expected, commercial, now);
      }
    }
  }

  /** Two different texts with one digest. */
  predicate Collide(sign: Signer, x: string, y: string) {
    x != y && sign(x) == sign(y)
  }

  /** The text a token was signed over, as far as it can be read. */
  function SignedText(token: string): Option<string> {
    match Frame(token)
    case None => None
    case Some((_, encoded, _)) => DecodePayload(encoded)
  }

  /** Two accepted tokens with one signature state the same claims, whenever and for whatever
      requests they are validated, unless the very texts they sign collide. */
  lemma SignatureFixesClaims(sign: Signer, tables: CharTables, t1: string, e1: string, commercial1: Option<bool>,
                             now1: int, t2: string, e2: string, commercial2: Option<bool>, now2: int)
    requires Validate(sign, tables, false, t1, e1, commercial1, now1).Valid?
    requires Validate(sign, tables, false, t2, e2, commercial2, now2).Valid?
    ensures SignedText(t1).Some? && SignedText(t2).Some?
    ensures var v1 := Validate(sign, tables, false, t1, e1, commercial1, now1);
            var v2 := Validate(sign, tables, false, t2, e2, commercial2, now2);
            v1.signature == v2.signature ==>
              v1.claims == v2.claims || Collide(sign, SignedText(t1).value, SignedText(t2).value)
  {
    AcceptedIsAuthentic(sign, tables, false, t1, e1, commercial1, now1);
    AcceptedIsAuthentic(sign, tables, false, t2, e2, commercial2, now2);
  }

  // ------------------------------------------------------------------
  // The spellings of a token
  // ------------------------------------------------------------------

  /** A string that carries the signature of the claims and decodes to their payload. The lenient
      decoder leaves many of them beside the token that was issued. */
  predicate Spells(sign: Signer, token: string, c: Claims) {
    match Frame(token)
    case None => false
    case Some((prefix, encoded, signature)) =>
      prefix == "HCT" && signature == sign(Payload(c)) && DecodePayload(encoded) == Some(Payload(c))
  }

  /** The string is accepted, with the signature of the claims. */
  predicate AcceptedAs(sign: Signer, tables: CharTables, revoked: bool, token: string, c: Claims,
                       expected: string, commercial: Option<bool>, now: int) {
    var v := Validate(sign, tables, revoked, token, expected, commercial, now);
    v.Valid? && v.signature == sign(Payload(c))
  }

  /** The string signs another text than the payload of the claims, with the same digest. */
  predicate Forges(sign: Signer, token: string, c: Claims) {
    SignedText(token).Some? && Collide(sign, SignedText(token).value, Payload(c))
  }

  /** Which strings with the signature of some claims are accepted, collisions aside: exactly the
      spellings of the claims, as long as these pass. */
  lemma AcceptedSpellings(sign: Signer, tables: CharTables, c: Claims, token: string, expected: string,
                          commercial: Option<bool>, now: int)
    requires HexDigests(sign)
    requires PipeFree(c) && c.scope !in RETIRED && HasEnum(c.scope)
    ensures AcceptedAs(sign, tables, false, token, c, expected, commercial, now) && !Forges(sign, token, c)
       <==> Spells(sign, token, c) && ClaimsVerdict(sign, tables, c, expected, commercial, now).Valid?
  {
    if Spells(sign, token, c) {
      CheckOwnPayload(sign, tables, c, expected, commercial, now);
    }
    if Validate(sign, tables, false, token, expected, commercial, now).Valid? {
      AcceptedIsAuthentic(sign, tables, false, token, expected, commercial, now);
      var (prefix, encoded, signature) := Frame(token).value;
      AcceptedPayload(sign, tables, DecodePayload(encoded).value, signature, expected, commercial, now);
    }
  }

  function Repeated(c: char, n: nat): (s: string)
    ensures |s| == n && forall i :: 0 <= i < n ==> s[i] == c
  {
    seq(n, i => c)
  }

  /** A signer that gives one text a digest of its own. */
  function Marking(text: string): Signer {
    s => if s == text then Repeated('a', 64) else Repeated('b', 64)
  }

  /** There are signers with 64-character digests under which no string forges given claims. */
  lemma SomeSignerFits(c: Claims)
    ensures HexDigests(Marking(Payload(c))) && forall token :: !Forges(Marking(Payload(c)), token, c)
  {
    assert Repeated('a', 64)[0] != Repeated('b', 64)[0];
  }

  /** The issued token with one character put before its encoded part. */
  function Respelled(sign: Signer, c: Claims, x: char): string {
    "HCT:" + ([x] + EncodeBase64(EncodeUtf8(Payload(c)))) + "." + sign(Payload(c))
  }

  lemma ScanSkips(x: char, s: string)
    requires SymbolValue(x).None? && x != '='
    ensures DecodeBase64([x] + s) == DecodeBase64(s)
  {
    assert ([x] + s)[1..] == s;
  }

  lemma FrameOf(encoded: string, signature: string)
    requires '.' !in encoded
    ensures Frame("HCT:" + encoded + "." + signature) == Some(("HCT", encoded, signature))
  {
    var signed := encoded + ['.'] + signature;
    assert "HCT:" + encoded + "." + signature == "HCT" + [':'] + signed;
    SplitOnceAt("HCT", ':', signed);
    SplitOnceAt(encoded, '.', signature);
  }

  /** Every character outside the alphabet gives another spelling. */
  lemma RespelledSpells(sign: Signer, c: Claims, x: char)
    requires SymbolValue(x).None? && x != '=' && x != '.'
    ensures Spells(sign, Respelled(sign, c, x), c) && Respelled(sign, c, x) != BuildToken(sign, c)
  {
    var encoded := EncodeBase64(EncodeUtf8(Payload(c)));
    FrameOf([x] + encoded, sign(Payload(c)));
    ScanSkips(x, encoded);
    FrameBuilt(sign, c);
    assert |Respelled(sign, c, x)| == |BuildToken(sign, c)| + 1;
  }

  // ------------------------------------------------------------------
  // Revocation
  // ------------------------------------------------------------------

  const GRACE_MS := 60 * 60 * 1000

  /** The expiry the cache reads out of a token; None when any step of that raises. */
  function EmbeddedExpiry(token: string): Option<int> {
    match Frame(token)
    case None => None
    case Some((_, encoded, _)) =>
      match DecodePayload(encoded)
      case None => None
      case Some(decoded) =>
        var parts := Split(decoded, '|');
        if |parts| == 5 || |parts| == 6 then ParseInt(parts[4]) else None
  }

  /** _evict_after_ms, with the deployment's default token lifetime as a parameter. */
  function EvictAfter(token: string, now: int, defaultLifetime: int): int {
    match EmbeddedExpiry(token)
    case Some(expiry) => expiry + GRACE_MS
    case None => now + defaultLifetime + GRACE_MS
  }

  /** The entries left once those due at `now` are gone. */
  function Unexpired(entries: map<string, int>, now: int): map<string, int> {
    map k | k in entries && entries[k] > now :: entries[k]
  }

  function Revoke(entries: map<string, int>, token: string, now: int, defaultLifetime: int): map<string, int> {
    Unexpired(entries, now)[token := EvictAfter(token, now, defaultLifetime)]
  }

  predicate Holds(entries: map<string, int>, token: string, now: int) {
    token in entries && now < entries[token]
  }

  /** A lookup deletes the entry it finds out of date. */
  function AfterLookup(entries: map<string, int>, token: string, now: int): map<string, int> {
    if token in entries && now >= entries[token] then entries - {token} else entries
  }

  /** _BoundedRevocationCache. Its lock makes each of these methods one atomic step. */
  class RevocationCache {
    var entries: map<string, int>
    const defaultLifetime: int

    constructor (defaultLifetime: int)
      ensures entries == map[] && this.defaultLifetime == defaultLifetime
    {
      this.entries := map[];
      this.defaultLifetime := defaultLifetime;
    }

    /** _evict_expired_locked */
    method EvictExpired(now: int) returns (count: nat)
      modifies this
      ensures entries == Unexpired(old(entries), now)
      ensures count == |old(entries)| - |entries|
    {
      var expired := set k | k in entries && entries[k] <= now;
      count := 0;
      while expired != {}
        invariant forall k :: k in expired ==> k in entries
        invariant entries.Keys <= old(entries).Keys && forall k :: k in entries ==> entries[k] == old(entries)[k]
        invariant forall k :: k in old(entries) ==> (k !in entries || k in expired <==> old(entries)[k] <= now)
        invariant count == |old(entries)| - |entries|
        decreases expired
      {
        var k :| k in expired;
        expired := expired - {k};
        assert (entries - {k}).Keys == entries.Keys - {k};
        entries := entries - {k};
        count := count + 1;
      }
      assert entries == Unexpired(old(entries), now);
    }

    /** add: the size limit only logs, so no revocation is ever dropped for space. */
    method Add(token: string, now: int)
      modifies this
      ensures entries == Revoke(old(entries), token, now, defaultLifetime)
    {
      var _ := EvictExpired(now);
      entries := entries[token := EvictAfter(token, now, defaultLifetime)];
    }

    /** __contains__ */
    method Contains(token: string, now: int) returns (found: bool)
      modifies this
      ensures found == Holds(old(entries), token, now)
      ensures entries == AfterLookup(old(entries), token, now)
    {
      if token !in entries { return false; }
      if now >= entries[token] {
        entries := entries - {token};
        return false;
      }
      return true;
    }

    /** validate_token against this cache. */
    method ValidateToken(sign: Signer, tables: CharTables, token: string, expected: string,
                         commercial: Option<bool>, now: int) returns (v: Validation)
      modifies this
      ensures v == Validate(sign, tables, Holds(old(entries), token, now), token, expected, commercial, now)
      ensures entries == AfterLookup(old(entries), token, now)
    {
      var revoked := Contains(token, now);
      v := Validate(sign, tables, revoked, token, expected, commercial, now);
    }
  }

  /** One use of the cache at one time. */
  datatype CacheStep = RevokeToken(token: string, at: int) | LookUp(token: string, at: int)

  function StepCache(entries: map<string, int>, step: CacheStep, defaultLifetime: int): map<string, int> {
    match step
    case RevokeToken(token, at) => Revoke(entries, token, at, defaultLifetime)
    case LookUp(token, at) => AfterLookup(entries, token, at)
  }

  function RunCache(entries: map<string, int>, steps: seq<CacheStep>, defaultLifetime: int): map<string, int> {
    if steps == [] then entries
    else StepCache(RunCache(entries, steps[..|steps| - 1], defaultLifetime), steps[|steps| - 1], defaultLifetime)
  }

  /** The clock does not run backwards, and every step comes at or after `from`. */
  predicate InOrder(steps: seq<CacheStep>, from: int) {
    && (forall i :: 0 <= i < |steps| ==> from <= steps[i].at)
    && (forall i, j :: 0 <= i < j < |steps| ==> steps[i].at <= steps[j].at)
  }

  function LastTime(steps: seq<CacheStep>, from: int): int {
    if steps == [] then from else steps[|steps| - 1].at
  }

  /** From `now` on no validation can accept the token, whether or not it is remembered. */
  predicate PastAccepting(token: string, now: int) {
    EmbeddedExpiry(token).None? || EmbeddedExpiry(token).value <= now
  }

  lemma PastAcceptingRefuses(sign: Signer, tables: CharTables, revoked: bool, token: string, expected: string,
                             commercial: Option<bool>, now: int)
    requires PastAccepting(token, now)
    ensures !Validate(sign, tables, revoked, token, expected, commercial, now).Valid?
  {
  }

  /** What the cache keeps of a revoked token: it stays remembered past its own expiry. */
  predicate Remembers(entries: map<string, int>, token: string, now: int) {
    PastAccepting(token, now)
    || (token in entries && EmbeddedExpiry(token).Some? && entries[token] == EmbeddedExpiry(token).value + GRACE_MS)
  }

  lemma {:induction false} RunRemembers(entries: map<string, int>, token: string, from: int, steps: seq<CacheStep>,
                                        defaultLifetime: int)
    requires Remembers(entries, token, from) && InOrder(steps, from)
    ensures Remembers(RunCache(entries, steps, defaultLifetime), token, LastTime(steps, from))
    ensures from <= LastTime(steps, from)
  {
    if steps != [] {
      var n := |steps| - 1;
      RunRemembers(entries, token, from, steps[..n], defaultLifetime);
      assert LastTime(steps[..n], from) <= steps[n].at;
    }
  }

  /** How long a revocation is held: an hour past the expiry in the token, or past the default
      lifetime for a string without one. */
  lemma HeldUntil(sign: Signer, c: Claims, entries: map<string, int>, token: string, at: int, defaultLifetime: int, now: int)
    ensures PipeFree(c) && token == BuildToken(sign, c) ==>
              (Holds(Revoke(entries, token, at, defaultLifetime), token, now) <==> now < c.expiresAt + 3_600_000)
    ensures SignedText(token).None? ==>
              (Holds(Revoke(entries, token, at, defaultLifetime), token, now) <==> now < at + defaultLifetime + 3_600_000)
  {
    FrameBuilt(sign, c);
    if PipeFree(c) {
      PayloadParts(c);
      ParseIntText(c.expiresAt);
    }
  }

  /** Revocation of a string is final: no sequence of further revocations and lookups at
      non-decreasing times lets that string be accepted again, for any request, although the
      cache forgets expired entries on the way. */
  lemma RevokedForever(sign: Signer, tables: CharTables, entries: map<string, int>, token: string, at: int,
                       steps: seq<CacheStep>, defaultLifetime: int, expected: string,
                       commercial: Option<bool>, now: int)
    requires InOrder(steps, at) && LastTime(steps, at) <= now
    ensures var later := RunCache(Revoke(entries, token, at, defaultLifetime), steps, defaultLifetime);
            !Validate(sign, tables, Holds(later, token, now), token, expected, commercial, now).Valid?
  {
    var first := Revoke(entries, token, at, defaultLifetime);
    RunRemembers(first, token, at, steps, defaultLifetime);
    if PastAccepting(token, now) {
      PastAcceptingRefuses(sign, tables, Holds(RunCache(first, steps, defaultLifetime), token, now), token,
                           expected, commercial, now);
    }
  }

  lemma {:induction false} NotHeld(entries: map<string, int>, steps: seq<CacheStep>, token: string, defaultLifetime: int)
    requires token !in entries
    requires forall i :: 0 <= i < |steps| && steps[i].RevokeToken? ==> steps[i].token != token
    ensures token !in RunCache(entries, steps, defaultLifetime)
  {
    if steps != [] {
      NotHeld(entries, steps[..|steps| - 1], token, defaultLifetime);
    }
  }

  /** A token nobody revoked is never reported as revoked. */
  lemma OnlyRevokedAreHeld(steps: seq<CacheStep>, token: string, defaultLifetime: int)
    requires forall i :: 0 <= i < |steps| && steps[i].RevokeToken? ==> steps[i].token != token
    ensures token !in RunCache(map[], steps, defaultLifetime)
  {
    NotHeld(map[], steps, token, defaultLifetime);
  }

  lemma OthersNotHeld(revoked: string, at: int, steps: seq<CacheStep>, defaultLifetime: int, token: string, now: int)
    requires token != revoked && forall i :: 0 <= i < |steps| && steps[i].RevokeToken? ==> steps[i].token == revoked
    ensures !Holds(RunCache(Revoke(map[], revoked, at, defaultLifetime), steps, defaultLifetime), token, now)
  {
    NotHeld(Revoke(map[], revoked, at, defaultLifetime), steps, token, defaultLifetime);
  }

  /** What is left after a token, and no other string, has been revoked: of the strings that
      carry its signature, and do not collide with its payload, exactly its other spellings are
      still accepted, for every request its claims pass. */
  lemma RevokedSpellings(sign: Signer, tables: CharTables, c: Claims, at: int, steps: seq<CacheStep>,
                         defaultLifetime: int, token: string, expected: string, commercial: Option<bool>, now: int)
    requires HexDigests(sign)
    requires PipeFree(c) && c.scope !in RETIRED && HasEnum(c.scope)
    requires InOrder(steps, at) && LastTime(steps, at) <= now
    requires forall i :: 0 <= i < |steps| && steps[i].RevokeToken? ==> steps[i].token == BuildToken(sign, c)
    ensures (var later := RunCache(Revoke(map[], BuildToken(sign, c), at, defaultLifetime), steps, defaultLifetime);
             AcceptedAs(sign, tables, Holds(later, token, now), token, c, expected, commercial, now)
             && !Forges(sign, token, c))
       <==> token != BuildToken(sign, c) && Spells(sign, token, c)
            && ClaimsVerdict(sign, tables, c, expected, commercial, now).Valid?
  {
    if token == BuildToken(sign, c) {
      RevokedForever(sign, tables, map[], token, at, steps, defaultLifetime, expected, commercial, now);
    } else {
      OthersNotHeld(BuildToken(sign, c), at, steps, defaultLifetime, token, now);
      AcceptedSpellings(sign, tables, c, token, expected, commercial, now);
    }
  }

  /** Claims that validate_token lets pass before `expiresAt`. */
  function PlainClaims(expiresAt: int): Claims {
    Claims("user", "agent", "pkm.read", 0, expiresAt, false)
  }

  lemma PlainClaimsPass(expiresAt: int)
    ensures var c := PlainClaims(expiresAt);
            PipeFree(c) && c.scope !in RETIRED && HasEnum(c.scope)
  {
  }

  /** Such a token is revoked, and then accepted with an exclamation mark put into it. */
  lemma RespelledIsAccepted(sign: Signer, tables: CharTables, defaultLifetime: int, at: int, now: int, expiresAt: int)
    requires HexDigests(sign) && at <= now < expiresAt
    ensures var c := PlainClaims(expiresAt);
            var entries := Revoke(map[], BuildToken(sign, c), at, defaultLifetime);
            var token := Respelled(sign, c, '!');
            && !Validate(sign, tables, Holds(entries, BuildToken(sign, c), now), BuildToken(sign, c), "", None, now).Valid?
            && Validate(sign, tables, Holds(entries, token, now), token, "", None, now).Valid?
  {
    var c := PlainClaims(expiresAt);
    var token := Respelled(sign, c, '!');
    PlainClaimsPass(expiresAt);
    RespelledSpells(sign, c, '!');
    RevokedSpellings(sign, tables, c, at, [], defaultLifetime, token, "", None, now);
    RevokedForever(sign, tables, map[], BuildToken(sign, c), at, [], defaultLifetime, "", None, now);
  }
}

/** The text of the query builder's clauses (db/db_client.py, _build_where_clause and the SET
    clause of _execute_update), and the placeholders the driver layer finds in it. */
module QueryText {
  import opened Text
  import opened QueryBuilder

  // ------------------------------------------------------------------
  // The text
  // ------------------------------------------------------------------

  function OpText(op: Op): string {
    match op
    case Eq => "="
    case Neq => "!="
    case Gt => ">"
    case Gte => ">="
    case Lt => "<"
    case Lte => "<="
    case Like => "LIKE"
    case ILike => "ILIKE"
  }

  function Quoted(column: string): string {
    "\"" + column + "\""
  }

  function ParamText(name: string): string {
    ":" + name
  }

  function ParamTexts(names: seq<string>): seq<string> {
    if names == [] then [] else [ParamText(names[0])] + ParamTexts(names[1..])
  }

  function ConditionText(c: Condition): string {
    match c
    case Comparison(column, op, name) => Quoted(column) + " " + OpText(op) + " " + ParamText(name)
    case IsNull(column) => Quoted(column) + " IS NULL"
    case IsParam(column, name) => Quoted(column) + " IS " + ParamText(name)
    case Membership(column, names) => Quoted(column) + " IN (" + Join(ParamTexts(names), ", ") + ")"
  }

  function ConditionTexts(conditions: seq<Condition>): seq<string> {
    if conditions == [] then [] else [ConditionText(conditions[0])] + ConditionTexts(conditions[1..])
  }

  function WhereText(conditions: seq<Condition>): string {
    if conditions == [] then "" else " WHERE " + Join(ConditionTexts(conditions), " AND ")
  }

  // ------------------------------------------------------------------
  // The placeholders found in a text
  // ------------------------------------------------------------------

  /** \w, where `wide` says which characters outside ASCII are letters or digits. */
  predicate IsWord(c: char, wide: char -> bool) {
    || 'a' <= c <= 'z' || 'A' <= c <= 'Z' || '0' <= c <= '9' || c == '_'
    || (c as int >= 128 && wide(c))
  }

  function WordRun(s: string, wide: char -> bool): (run: string)
    ensures |run| <= |s| && run == s[..|run|]
    ensures forall i :: 0 <= i < |run| ==> IsWord(run[i], wide)
    ensures |run| < |s| ==> !IsWord(s[|run|], wide)
  {
    if s != "" && IsWord(s[0], wide) then [s[0]] + WordRun(s[1..], wide) else ""
  }

  /** (?<![:\w\\]) */
  predicate MayPrecede(c: char, wide: char -> bool) {
    c != ':' && c != '\\' && !IsWord(c, wide)
  }

  /** What (\w+)(?!:) matches at the start of s: the longest run of word characters that no colon
      follows, which is empty when there is no match. */
  function NameAt(s: string, wide: char -> bool): (name: string)
    ensures |name| <= |s| && name == s[..|name|]
    ensures forall i :: 0 <= i < |name| ==> IsWord(name[i], wide)
  {
    var run := WordRun(s, wide);
    if run != "" && |run| < |s| && s[|run|] == ':' then run[..|run| - 1] else run
  }

  /** The names the pattern (?<![:\w\\]):(\w+)(?!:) finds, from left to right. `before` is the
      character to the left of s. */
  function Scan(s: string, before: char, wide: char -> bool): seq<string>
    decreases |s|
  {
    if s == "" then []
    else if s[0] != ':' || !MayPrecede(before, wide) then Scan(s[1..], s[0], wide)
    else
      var name := NameAt(s[1..], wide);
      if name == "" then Scan(s[1..], s[0], wide)
      else [name] + Scan(s[1 + |name|..], name[|name| - 1], wide)
  }

  /** The names found in a whole text. */
  function Found(text: string, wide: char -> bool): seq<string> {
    Scan(text, ' ', wide)
  }

  predicate IsName(s: string, wide: char -> bool) {
    s != "" && forall i :: 0 <= i < |s| ==> IsWord(s[i], wide)
  }

  predicate AreNames(names: seq<string>, wide: char -> bool) {
    forall i :: 0 <= i < |names| ==> IsName(names[i], wide)
  }

  // ------------------------------------------------------------------
  // Texts in pieces
  // ------------------------------------------------------------------

  /** No name runs over the end of this text. */
  predicate Closed(a: string, wide: char -> bool) {
    a != "" && a[|a| - 1] != ':' && !IsWord(a[|a| - 1], wide)
  }

  lemma {:induction false} WordRunCut(a: string, s: string, wide: char -> bool)
    requires a == "" || Closed(a, wide)
    requires a != "" || s == "" || !IsWord(s[0], wide)
    ensures WordRun(a + s, wide) == WordRun(a, wide)
  {
    if a == "" {
      assert a + s == s;
    } else if IsWord(a[0], wide) {
      assert (a + s)[1..] == a[1..] + s;
      WordRunCut(a[1..], s, wide);
    }
  }

  lemma RunStopsInside(a: string, wide: char -> bool)
    requires Closed(a, wide)
    ensures |WordRun(a, wide)| < |a|
  {
    var run := WordRun(a, wide);
    assert run != "" ==> IsWord(a[|run| - 1], wide);
  }

  lemma NameCut(a: string, s: string, wide: char -> bool)
    requires Closed(a, wide)
    ensures NameAt(a + s, wide) == NameAt(a, wide) && |NameAt(a, wide)| < |a|
  {
    WordRunCut(a, s, wide);
    RunStopsInside(a, wide);
    assert (a + s)[|WordRun(a, wide)|] == a[|WordRun(a, wide)|];
  }

  /** One step of the scan at a colon that may start a placeholder. */
  lemma ScanHit(s: string, before: char, name: string, rest: string, wide: char -> bool)
    requires s != "" && s[0] == ':' && MayPrecede(before, wide)
    requires name == NameAt(s[1..], wide) && name != "" && rest == s[1 + |name|..]
    ensures Scan(s, before, wide) == [name] + Scan(rest, name[|name| - 1], wide)
  {
  }

  lemma ScanMiss(s: string, before: char, wide: char -> bool)
    requires s != "" && (s[0] == ':' && MayPrecede(before, wide) ==> NameAt(s[1..], wide) == "")
    ensures Scan(s, before, wide) == Scan(s[1..], s[0], wide)
  {
  }

  lemma Assoc(a: seq<string>, b: seq<string>, c: seq<string>)
    ensures a + (b + c) == a + b + c
  {
  }

  /** A closed text, of which all but its first character is known to be scanned apart. */
  lemma ScanCutMiss(a: string, s: string, before: char, wide: char -> bool)
    requires Closed(a, wide) && (a[0] == ':' && MayPrecede(before, wide) ==> NameAt(a[1..], wide) == "")
    requires Scan(a[1..] + s, a[0], wide) == Scan(a[1..], a[0], wide) + Scan(s, a[|a| - 1], wide)
    ensures Scan(a + s, before, wide) == Scan(a, before, wide) + Scan(s, a[|a| - 1], wide)
  {
    assert (a + s)[1..] == a[1..] + s;
    if |a| > 1 { NameCut(a[1..], s, wide); }
    ScanMiss(a, before, wide);
    ScanMiss(a + s, before, wide);
  }

  /** The same with all but a placeholder at its start. */
  lemma ScanCutHit(a: string, s: string, before: char, name: string, rest: string, wide: char -> bool)
    requires Closed(a, wide) && |a| > 1 && a[0] == ':' && MayPrecede(before, wide)
    requires name == NameAt(a[1..], wide) && name != "" && rest == a[1 + |name|..]
    requires Scan(rest + s, name[|name| - 1], wide) == Scan(rest, name[|name| - 1], wide) + Scan(s, a[|a| - 1], wide)
    ensures Scan(a + s, before, wide) == Scan(a, before, wide) + Scan(s, a[|a| - 1], wide)
  {
    NameCut(a[1..], s, wide);
    DropFrom(a, s, 1);
    DropFrom(a, s, 1 + |name|);
    ScanHit(a, before, name, rest, wide);
    ScanHit(a + s, before, name, rest + s, wide);
    Assoc([name], Scan(rest, name[|name| - 1], wide), Scan(s, a[|a| - 1], wide));
  }

  lemma DropFrom(a: string, s: string, k: nat)
    requires k <= |a|
    ensures (a + s)[k..] == a[k..] + s
  {
  }

  /** The names of a closed text and of what follows it are found apart from each other. */
  lemma {:induction false} ScanCut(a: string, s: string, before: char, wide: char -> bool)
    requires Closed(a, wide)
    ensures Scan(a + s, before, wide) == Scan(a, before, wide) + Scan(s, a[|a| - 1], wide)
    decreases |a|, 0
  {
    if |a| > 1 && a[0] == ':' && MayPrecede(before, wide) && NameAt(a[1..], wide) != "" {
      var name := NameAt(a[1..], wide);
      NameCut(a[1..], s, wide);
      ScanCut(a[1 + |name|..], s, name[|name| - 1], wide);
      ScanCutHit(a, s, before, name, a[1 + |name|..], wide);
    } else {
      ScanCutRest(a, s, wide);
      ScanCutMiss(a, s, before, wide);
    }
  }

  lemma {:induction false} ScanCutRest(a: string, s: string, wide: char -> bool)
    requires Closed(a, wide)
    ensures Scan(a[1..] + s, a[0], wide) == Scan(a[1..], a[0], wide) + Scan(s, a[|a| - 1], wide)
    decreases |a| - 1, 1
  {
    if |a| == 1 {
      assert a[1..] + s == s;
    } else {
      ScanCut(a[1..], s, a[0], wide);
    }
  }

  lemma ScanAnyBefore(s: string, a: char, b: char, wide: char -> bool)
    requires s == "" || s[0] != ':'
    ensures Scan(s, a, wide) == Scan(s, b, wide)
  {
  }

  /** What follows a placeholder in a clause: nothing, or a character that ends the name. */
  predicate Ends(s: string, wide: char -> bool) {
    s == "" || (!IsWord(s[0], wide) && s[0] != ':')
  }

  lemma FoundCut(a: string, s: string, wide: char -> bool)
    requires Closed(a, wide) && Ends(s, wide)
    ensures Found(a + s, wide) == Found(a, wide) + Found(s, wide)
  {
    ScanCut(a, s, ' ', wide);
    ScanAnyBefore(s, a[|a| - 1], ' ', wide);
  }

  lemma {:induction false} ScanPlain(plain: string, before: char, wide: char -> bool)
    requires ':' !in plain
    ensures Scan(plain, before, wide) == []
    decreases |plain|
  {
    if plain != "" { ScanPlain(plain[1..], plain[0], wide); }
  }

  /** Plain text before the rest. */
  lemma ScanAfter(plain: string, s: string, before: char, wide: char -> bool)
    requires Closed(plain, wide) && ':' !in plain
    ensures Scan(plain + s, before, wide) == Scan(s, plain[|plain| - 1], wide)
  {
    ScanCut(plain, s, before, wide);
    ScanPlain(plain, before, wide);
  }

  lemma {:induction false} WordRunOf(name: string, s: string, wide: char -> bool)
    requires forall i :: 0 <= i < |name| ==> IsWord(name[i], wide)
    requires Ends(s, wide)
    ensures WordRun(name + s, wide) == name
  {
    if name == "" {
      assert name + s == s;
    } else {
      assert (name + s)[1..] == name[1..] + s;
      WordRunOf(name[1..], s, wide);
    }
  }

  lemma ScanName(name: string, s: string, before: char, wide: char -> bool)
    requires IsName(name, wide) && Ends(s, wide) && (before == ' ' || before == '(')
    ensures Scan(ParamText(name) + s, before, wide) == [name] + Found(s, wide)
  {
    var text := ParamText(name) + s;
    assert text[1..] == name + s;
    WordRunOf(name, s, wide);
    assert NameAt(name + s, wide) == name;
    assert text[1 + |name|..] == s;
    ScanHit(text, before, name, s, wide);
    ScanAnyBefore(s, name[|name| - 1], ' ', wide);
  }

  // ------------------------------------------------------------------
  // Which texts hold a placeholder
  // ------------------------------------------------------------------

  /** A placeholder starts at the i-th character: a colon after nothing that hides it, and a word
      character that is not itself followed by a colon. */
  predicate StartsAt(s: string, before: char, i: nat, wide: char -> bool) {
    && i + 1 < |s| && s[i] == ':' && MayPrecede(if i == 0 then before else s[i - 1], wide)
    && IsWord(s[i + 1], wide) && !(i + 2 < |s| && s[i + 2] == ':')
  }

  predicate HoldsPlaceholder(text: string, wide: char -> bool) {
    exists i :: 0 <= i < |text| && StartsAt(text, ' ', i, wide)
  }

  lemma NameStarts(s: string, before: char, wide: char -> bool)
    requires s != "" && s[0] == ':' && MayPrecede(before, wide)
    ensures StartsAt(s, before, 0, wide) <==> NameAt(s[1..], wide) != ""
  {
    var run := WordRun(s[1..], wide);
    if |s| > 1 && IsWord(s[1], wide) {
      assert run == [s[1]] + WordRun(s[2..], wide);
      assert s[1..][|run|..] == s[1 + |run|..];
      if |s| > 2 && s[2] == ':' { assert |run| == 1; }
    }
  }

  lemma {:induction false} NothingFound(s: string, before: char, wide: char -> bool)
    ensures Scan(s, before, wide) == [] <==> forall i :: 0 <= i < |s| ==> !StartsAt(s, before, i, wide)
    decreases |s|
  {
    if s != "" {
      NothingFound(s[1..], s[0], wide);
      forall i | 0 < i < |s| ensures StartsAt(s, before, i, wide) <==> StartsAt(s[1..], s[0], i - 1, wide) {
      }
      if s[0] == ':' && MayPrecede(before, wide) { NameStarts(s, before, wide); }
      if forall i :: 0 <= i < |s| ==> !StartsAt(s, before, i, wide) {
        assert !StartsAt(s, before, 0, wide);
        forall i | 0 <= i < |s[1..]| ensures !StartsAt(s[1..], s[0], i, wide) {
          assert !StartsAt(s, before, i + 1, wide);
        }
      }
    }
  }

  /** A column, or a table, whose quoted name holds no placeholder adds none to a clause. */
  lemma StrayMeaning(column: string, wide: char -> bool)
    ensures Stray(column, wide) == [] <==> !HoldsPlaceholder(Quoted(column), wide)
  {
    NothingFound(Quoted(column), ' ', wide);
  }

  // ------------------------------------------------------------------
  // The placeholders of a clause
  // ------------------------------------------------------------------

  /** What the pattern takes for placeholders in a quoted name. */
  function Stray(column: string, wide: char -> bool): seq<string> {
    Found(Quoted(column), wide)
  }

  /** A quoted name and plain text, then the rest. */
  lemma FoundQuoted(column: string, plain: string, s: string, wide: char -> bool)
    requires ':' !in plain && Closed(plain, wide)
    ensures Found(Quoted(column) + plain + s, wide) == Stray(column, wide) + Scan(s, plain[|plain| - 1], wide)
  {
    var last := Quoted(column)[|Quoted(column)| - 1];
    assert last == '"';
    assert Quoted(column) + plain + s == Quoted(column) + (plain + s);
    ScanCut(Quoted(column), plain + s, ' ', wide);
    ScanAfter(plain, s, last, wide);
  }

  lemma FoundParam(column: string, plain: string, name: string, s: string, wide: char -> bool)
    requires ':' !in plain && plain != "" && plain[|plain| - 1] == ' '
    requires IsName(name, wide) && Ends(s, wide)
    ensures Found(Quoted(column) + plain + ParamText(name) + s, wide) == Stray(column, wide) + [name] + Found(s, wide)
  {
    assert Quoted(column) + plain + ParamText(name) + s == Quoted(column) + plain + (ParamText(name) + s);
    FoundQuoted(column, plain, ParamText(name) + s, wide);
    ScanName(name, s, ' ', wide);
  }

  lemma {:induction false} ScanNames(names: seq<string>, s: string, before: char, wide: char -> bool)
    requires AreNames(names, wide)
    requires Ends(s, wide) && (before == ' ' || before == '(')
    ensures Scan(Join(ParamTexts(names), ", ") + s, before, wide) == names + Found(s, wide)
    decreases |names|
  {
    if names == [] {
      assert Join(ParamTexts(names), ", ") + s == s;
      ScanAnyBefore(s, before, ' ', wide);
    } else if |names| == 1 {
      JoinOne(names, ", ");
      ScanName(names[0], s, before, wide);
    } else {
      JoinFirst(names, ", ", s);
      ScanListed(names[0], Join(ParamTexts(names[1..]), ", ") + s, before, wide);
      ScanNames(names[1..], s, ' ', wide);
      FirstAndRest(names, Found(s, wide));
    }
  }

  lemma FirstAndRest(names: seq<string>, more: seq<string>)
    requires names != []
    ensures [names[0]] + (names[1..] + more) == names + more
  {
  }

  lemma JoinOne(names: seq<string>, sep: string)
    requires |names| == 1
    ensures Join(ParamTexts(names), sep) == ParamText(names[0])
  {
    assert ParamTexts(names) == [ParamText(names[0])];
  }

  lemma JoinFirst(names: seq<string>, sep: string, s: string)
    requires |names| >= 2
    ensures Join(ParamTexts(names), sep) + s == ParamText(names[0]) + (sep + (Join(ParamTexts(names[1..]), sep) + s))
  {
    assert ParamTexts(names)[1..] == ParamTexts(names[1..]);
  }

  /** A placeholder with more of them after a comma. */
  lemma ScanListed(name: string, rest: string, before: char, wide: char -> bool)
    requires IsName(name, wide) && (before == ' ' || before == '(')
    ensures Scan(ParamText(name) + (", " + rest), before, wide) == [name] + Found(rest, wide)
  {
    ScanName(name, ", " + rest, before, wide);
    ScanAfter(", ", rest, ' ', wide);
  }

  lemma FoundMembership(column: string, names: seq<string>, s: string, wide: char -> bool)
    requires Ends(s, wide) && AreNames(names, wide)
    ensures Found(ConditionText(Membership(column, names)) + s, wide) == Stray(column, wide) + names + Found(s, wide)
  {
    var list := Join(ParamTexts(names), ", ");
    assert ConditionText(Membership(column, names)) + s == Quoted(column) + " IN (" + (list + (")" + s));
    FoundQuoted(column, " IN (", list + (")" + s), wide);
    FoundList(names, ")", s, wide);
    Assoc(Stray(column, wide), names, Found(s, wide));
  }

  /** A list of placeholders and the bracket after it. */
  lemma FoundList(names: seq<string>, close: string, s: string, wide: char -> bool)
    requires Ends(s, wide) && AreNames(names, wide) && |close| == 1 && close[0] == ')'
    ensures Scan(Join(ParamTexts(names), ", ") + (close + s), '(', wide) == names + Found(s, wide)
  {
    assert (close + s)[0] == ')';
    ScanNames(names, close + s, '(', wide);
    ScanAfter(close, s, ' ', wide);
    ScanAnyBefore(s, ')', ' ', wide);
  }

  /** What one condition mentions, its column included. */
  function MentionedIn(c: Condition, wide: char -> bool): seq<string> {
    Stray(c.column, wide) + NamesOf(c)
  }

  /** The text of one condition mentions its placeholders, and what its column is taken for. */
  lemma FoundCondition(c: Condition, s: string, wide: char -> bool)
    requires AreNames(NamesOf(c), wide) && Ends(s, wide)
    ensures Found(ConditionText(c) + s, wide) == MentionedIn(c, wide) + Found(s, wide)
  {
    match c {
      case Comparison(column, op, name) =>
        assert IsName(NamesOf(c)[0], wide);
        OpIsPlain(op);
        var plain := " " + OpText(op) + " ";
        assert ConditionText(c) + s == Quoted(column) + plain + ParamText(name) + s;
        FoundParam(column, plain, name, s, wide);
      case IsNull(column) =>
        FoundNull(column, " IS NULL", s, wide);
      case IsParam(column, name) =>
        assert IsName(NamesOf(c)[0], wide);
        FoundParam(column, " IS ", name, s, wide);
      case Membership(column, names) =>
        FoundMembership(column, names, s, wide);
    }
  }

  lemma OpIsPlain(op: Op)
    ensures ':' !in " " + OpText(op) + " "
  {
  }

  lemma FoundNull(column: string, plain: string, s: string, wide: char -> bool)
    requires ':' !in plain && plain != "" && Ends(s, wide)
    ensures Found(Quoted(column) + plain + s, wide) == Stray(column, wide) + [] + Found(s, wide)
  {
    var last := Quoted(column)[|Quoted(column)| - 1];
    assert last == '"';
    assert Quoted(column) + plain + s == Quoted(column) + (plain + s);
    ScanCut(Quoted(column), plain + s, ' ', wide);
    ScanOver(plain, s, last, wide);
  }

  lemma {:induction false} ScanOver(plain: string, s: string, before: char, wide: char -> bool)
    requires ':' !in plain && Ends(s, wide)
    ensures Scan(plain + s, before, wide) == Found(s, wide)
    decreases |plain|
  {
    if plain == "" {
      assert plain + s == s;
      ScanAnyBefore(s, before, ' ', wide);
    } else {
      assert (plain + s)[1..] == plain[1..] + s;
      ScanOver(plain[1..], s, plain[0], wide);
    }
  }

  /** What the conditions mention, from the first on. */
  function MentionedInOrder(conditions: seq<Condition>, wide: char -> bool): seq<string> {
    if conditions == [] then [] else MentionedIn(conditions[0], wide) + MentionedInOrder(conditions[1..], wide)
  }

  ghost predicate AllNamed(conditions: seq<Condition>, wide: char -> bool) {
    forall i :: 0 <= i < |conditions| ==> AreNames(NamesOf(conditions[i]), wide)
  }

  lemma {:induction false} FoundConditions(conditions: seq<Condition>, s: string, wide: char -> bool)
    requires conditions != [] && Ends(s, wide) && AllNamed(conditions, wide)
    ensures Found(Join(ConditionTexts(conditions), " AND ") + s, wide) == MentionedInOrder(conditions, wide) + Found(s, wide)
    decreases |conditions|
  {
    if |conditions| == 1 {
      OneCondition(conditions, " AND ", wide);
      FoundCondition(conditions[0], s, wide);
    } else {
      var rest := Join(ConditionTexts(conditions[1..]), " AND ") + s;
      JoinConditions(conditions, " AND ", s);
      FoundConditions(conditions[1..], s, wide);
      FoundAnd(conditions[0], " AND ", rest, MentionedInOrder(conditions[1..], wide), Found(s, wide), wide);
    }
  }

  lemma OneCondition(conditions: seq<Condition>, sep: string, wide: char -> bool)
    requires |conditions| == 1
    ensures Join(ConditionTexts(conditions), sep) == ConditionText(conditions[0])
    ensures MentionedInOrder(conditions, wide) == MentionedIn(conditions[0], wide)
  {
    assert ConditionTexts(conditions) == [ConditionText(conditions[0])];
    assert MentionedInOrder(conditions[1..], wide) == [];
  }

  lemma FoundAnd(c: Condition, sep: string, rest: string, mentioned: seq<string>, end: seq<string>, wide: char -> bool)
    requires AreNames(NamesOf(c), wide) && Found(rest, wide) == mentioned + end
    requires ':' !in sep && sep != "" && sep[0] == ' ' && sep[|sep| - 1] == ' '
    ensures Found(ConditionText(c) + (sep + rest), wide) == MentionedIn(c, wide) + mentioned + end
  {
    assert (sep + rest)[0] == ' ';
    FoundCondition(c, sep + rest, wide);
    ScanAfter(sep, rest, ' ', wide);
    Assoc(MentionedIn(c, wide), mentioned, end);
  }

  lemma JoinConditions(conditions: seq<Condition>, sep: string, s: string)
    requires |conditions| >= 2
    ensures Join(ConditionTexts(conditions), sep) + s
         == ConditionText(conditions[0]) + (sep + (Join(ConditionTexts(conditions[1..]), sep) + s))
  {
    assert ConditionTexts(conditions)[1..] == ConditionTexts(conditions[1..]);
  }

  // ------------------------------------------------------------------
  // Against the dictionary
  // ------------------------------------------------------------------

  /** The placeholders of the conditions from the first on. */
  function NamesInOrder(conditions: seq<Condition>): seq<string> {
    if conditions == [] then [] else NamesOf(conditions[0]) + NamesInOrder(conditions[1..])
  }

  lemma {:induction false} NamesInOrderAre(conditions: seq<Condition>, last: Condition)
    ensures NamesInOrder(conditions + [last]) == NamesInOrder(conditions) + NamesOf(last)
  {
    if conditions == [] {
      assert [last][1..] == [];
    } else {
      assert (conditions + [last])[1..] == conditions[1..] + [last];
      NamesInOrderAre(conditions[1..], last);
    }
  }

  lemma {:induction false} PlaceholdersInOrder(conditions: seq<Condition>)
    ensures NamesInOrder(conditions) == Placeholders(conditions)
  {
    if conditions != [] {
      var n := |conditions| - 1;
      PlaceholdersInOrder(conditions[..n]);
      NamesInOrderAre(conditions[..n], conditions[n]);
      assert conditions == conditions[..n] + [conditions[n]];
    }
  }

  /** No condition's column is taken for a placeholder. */
  predicate NoStray(conditions: seq<Condition>, wide: char -> bool) {
    conditions == [] || (Stray(conditions[0].column, wide) == [] && NoStray(conditions[1..], wide))
  }

  /** Strays lengthen what is mentioned, so it is what is named exactly when there are none. */
  lemma {:induction false} MentionedIsNamed(conditions: seq<Condition>, wide: char -> bool)
    ensures |MentionedInOrder(conditions, wide)| >= |NamesInOrder(conditions)|
    ensures |MentionedInOrder(conditions, wide)| == |NamesInOrder(conditions)| ==> NoStray(conditions, wide)
    ensures NoStray(conditions, wide) ==> MentionedInOrder(conditions, wide) == NamesInOrder(conditions)
  {
    if conditions != [] { MentionedIsNamed(conditions[1..], wide); }
  }

  lemma DecimalIsName(prefix: string, n: nat, wide: char -> bool)
    requires IsName(prefix, wide)
    ensures IsName(prefix + Decimal(n), wide)
  {
  }

  lemma GeneratedNames(f: Filter, i: nat, wide: char -> bool)
    ensures AreNames(NamesOf(ConditionFor(f, i)), wide)
  {
    DecimalIsName("p", i, wide);
    if f.In? {
      forall j | 0 <= j < |f.values| ensures IsName(ElementName(i, j), wide) {
        DecimalIsName(FilterName(i) + "_", j, wide);
      }
    }
  }

  /** No filter's column is taken for a placeholder. */
  predicate HarmlessColumns(filters: seq<Filter>, wide: char -> bool) {
    forall i :: 0 <= i < |filters| ==> !HoldsPlaceholder(Quoted(filters[i].column), wide)
  }

  lemma {:induction false} NoStrayAt(conditions: seq<Condition>, wide: char -> bool)
    ensures NoStray(conditions, wide) <==> forall i :: 0 <= i < |conditions| ==> Stray(conditions[i].column, wide) == []
  {
    if conditions != [] {
      NoStrayAt(conditions[1..], wide);
      forall i | 0 < i < |conditions| ensures conditions[i] == conditions[1..][i - 1] {
      }
      if forall i :: 0 <= i < |conditions| ==> Stray(conditions[i].column, wide) == [] {
        forall i | 0 <= i < |conditions[1..]| ensures Stray(conditions[1..][i].column, wide) == [] {
          assert Stray(conditions[i + 1].column, wide) == [];
        }
      }
    }
  }

  lemma HarmlessIsNoStray(filters: seq<Filter>, wide: char -> bool)
    ensures HarmlessColumns(filters, wide) <==> NoStray(ConditionsFor(filters), wide)
  {
    var conditions := ConditionsFor(filters);
    NoStrayAt(conditions, wide);
    forall i | 0 <= i < |filters|
      ensures Stray(conditions[i].column, wide) == [] <==> !HoldsPlaceholder(Quoted(filters[i].column), wide) {
      StrayMeaning(filters[i].column, wide);
    }
  }

  lemma WhereSplit(conditions: seq<Condition>, s: string)
    requires conditions != []
    ensures WhereText(conditions) + s == " WHERE " + (Join(ConditionTexts(conditions), " AND ") + s)
  {
  }

  lemma WhereTextThen(filters: seq<Filter>, s: string, wide: char -> bool)
    requires Ends(s, wide)
    ensures Found(WhereText(ConditionsFor(filters)) + s, wide)
         == MentionedInOrder(ConditionsFor(filters), wide) + Found(s, wide)
  {
    var conditions := ConditionsFor(filters);
    if conditions == [] {
      assert WhereText(conditions) + s == s;
    } else {
      forall i | 0 <= i < |conditions| ensures AreNames(NamesOf(conditions[i]), wide) {
        GeneratedNames(filters[i], i, wide);
      }
      WhereSplit(conditions, s);
      ScanAfter(" WHERE ", Join(ConditionTexts(conditions), " AND ") + s, ' ', wide);
      FoundConditions(conditions, s, wide);
    }
  }

  /** The names of the dictionary lie inside what the clause mentions; it mentions no more
      exactly when no column is taken for a placeholder. */
  lemma MentionedAgainstBindings(filters: seq<Filter>, wide: char -> bool)
    ensures var mentioned := MentionedInOrder(ConditionsFor(filters), wide);
            && |mentioned| >= |Bindings(filters)|
            && (|mentioned| == |Bindings(filters)| ==> HarmlessColumns(filters, wide))
            && (HarmlessColumns(filters, wide) ==> mentioned == Names(Bindings(filters)))
  {
    PlaceholdersInOrder(ConditionsFor(filters));
    PlaceholdersAreBindings(filters);
    MentionedIsNamed(ConditionsFor(filters), wide);
    HarmlessIsNoStray(filters, wide);
  }

  /** The placeholders found in the text of a WHERE clause are exactly the names the dictionary
      was given, in order, if and only if no column is taken for a placeholder. */
  lemma WhereTextMentions(filters: seq<Filter>, wide: char -> bool)
    ensures Found(WhereText(ConditionsFor(filters)), wide) == Names(Bindings(filters)) <==> HarmlessColumns(filters, wide)
  {
    WhereTextThen(filters, "", wide);
    assert WhereText(ConditionsFor(filters)) + "" == WhereText(ConditionsFor(filters));
    MentionedAgainstBindings(filters, wide);
  }

  /** A column that starts with a colon and goes on as a name is taken for a placeholder. */
  lemma ColonFirstIsTaken(name: string, wide: char -> bool)
    requires IsName(name, wide)
    ensures Found(Quoted(":" + name), wide) == [name]
    ensures HoldsPlaceholder(Quoted(":" + name), wide)
  {
    assert Quoted(":" + name) == "\"" + (ParamText(name) + "\"");
    assert Quoted(":" + name)[1..] == ParamText(name) + "\"";
    assert (ParamText(name) + "\"")[1..] == name + "\"";
    WordRunOf(name, "\"", wide);
    assert (ParamText(name) + "\"")[1 + |name|..] == "\"";
    ScanHit(ParamText(name) + "\"", '"', name, "\"", wide);
    ScanPlain("\"", name[|name| - 1], wide);
    StrayMeaning(":" + name, wide);
  }

  /** A colon between two words is not: it follows a word character. */
  lemma ColonInsideIsHarmless(left: string, right: string, wide: char -> bool)
    requires IsName(left, wide) && ':' !in right
    ensures !HoldsPlaceholder(Quoted(left + ":" + right), wide)
  {
    var text := Quoted(left + ":" + right);
    forall i | 0 <= i < |text| ensures !StartsAt(text, ' ', i, wide) {
      if i == |left| + 1 {
        assert text[i - 1] == left[|left| - 1];
      } else {
        OnlyColon(left, right, i);
      }
    }
  }

  lemma OnlyColon(left: string, right: string, i: nat)
    requires ':' !in left && ':' !in right && i < |Quoted(left + ":" + right)| && i != |left| + 1
    ensures Quoted(left + ":" + right)[i] != ':'
  {
    if 1 <= i <= |left| {
      assert Quoted(left + ":" + right)[i] == left[i - 1];
    } else if |left| + 1 < i < |left| + 2 + |right| {
      assert Quoted(left + ":" + right)[i] == right[i - |left| - 2];
    }
  }

  // ------------------------------------------------------------------
  // SET
  // ------------------------------------------------------------------

  function AssignText(column: string, n: nat): string {
    Quoted(column) + " = " + ParamText(SetName(n))
  }

  /** "c0" = :u0, "c1" = :u1, ... from the n-th column on */
  function SetText(columns: seq<string>, n: nat): string
    decreases |columns|
  {
    if columns == [] then ""
    else
      AssignText(columns[0], n)
      + (if |columns| == 1 then "" else ", " + SetText(columns[1..], n + 1))
  }

  const ENDING := " RETURNING *"

  function UpdateText(table: string, columns: seq<string>, conditions: seq<Condition>): string {
    "UPDATE " + Quoted(table) + " SET " + SetText(columns, 0) + WhereText(conditions) + ENDING
  }

  function SetNamesFrom(count: nat, n: nat): (names: seq<string>)
    ensures |names| == count
  {
    if count == 0 then [] else [SetName(n)] + SetNamesFrom(count - 1, n + 1)
  }

  /** What the assignments mention, their columns included. */
  function SetMentioned(columns: seq<string>, n: nat, wide: char -> bool): seq<string>
    decreases |columns|
  {
    if columns == [] then []
    else Stray(columns[0], wide) + [SetName(n)] + SetMentioned(columns[1..], n + 1, wide)
  }

  lemma {:induction false} FoundSet(columns: seq<string>, n: nat, s: string, wide: char -> bool)
    requires columns != [] && Ends(s, wide)
    ensures Found(SetText(columns, n) + s, wide) == SetMentioned(columns, n, wide) + Found(s, wide)
    decreases |columns|
  {
    SetSplit(columns, n, s);
    if |columns| == 1 {
      assert SetMentioned(columns[1..], n + 1, wide) == [];
      FoundAssign(columns[0], n, s, wide);
    } else {
      FoundSet(columns[1..], n + 1, s, wide);
      FoundAssignMore(columns[0], n, SetText(columns[1..], n + 1) + s, SetMentioned(columns[1..], n + 1, wide),
                      Found(s, wide), wide);
    }
  }

  lemma FoundAssignMore(column: string, n: nat, rest: string, mentioned: seq<string>, end: seq<string>, wide: char -> bool)
    requires Found(rest, wide) == mentioned + end
    ensures Found(AssignText(column, n) + (", " + rest), wide) == Stray(column, wide) + [SetName(n)] + mentioned + end
  {
    FoundAssign(column, n, ", " + rest, wide);
    ScanAfter(", ", rest, ' ', wide);
    Assoc(Stray(column, wide) + [SetName(n)], mentioned, end);
  }

  lemma SetSplit(columns: seq<string>, n: nat, s: string)
    requires columns != []
    ensures SetText(columns, n) + s
         == AssignText(columns[0], n) + (if |columns| == 1 then s else ", " + (SetText(columns[1..], n + 1) + s))
  {
    if |columns| > 1 {
      assert SetText(columns, n) == AssignText(columns[0], n) + (", " + SetText(columns[1..], n + 1));
    } else {
      assert SetText(columns, n) == AssignText(columns[0], n);
    }
  }

  lemma FoundAssign(column: string, n: nat, s: string, wide: char -> bool)
    requires Ends(s, wide)
    ensures Found(AssignText(column, n) + s, wide) == Stray(column, wide) + [SetName(n)] + Found(s, wide)
  {
    DecimalIsName("u", n, wide);
    FoundParam(column, " = ", SetName(n), s, wide);
  }

  lemma {:induction false} SetNamesInOrder(values: seq<Value>, n: nat, k: nat)
    requires k + n == |values|
    ensures SetNamesFrom(k, n) == Names(SetBindings(values))[n..]
    decreases k
  {
    if k > 0 { SetNamesInOrder(values, n + 1, k - 1); }
  }

  predicate NoStrayNames(columns: seq<string>, wide: char -> bool) {
    columns == [] || (Stray(columns[0], wide) == [] && NoStrayNames(columns[1..], wide))
  }

  lemma {:induction false} SetMentionedIsNamed(columns: seq<string>, n: nat, wide: char -> bool)
    ensures |SetMentioned(columns, n, wide)| >= |columns|
    ensures |SetMentioned(columns, n, wide)| == |columns| ==> NoStrayNames(columns, wide)
    ensures NoStrayNames(columns, wide) ==> SetMentioned(columns, n, wide) == SetNamesFrom(|columns|, n)
    decreases |columns|
  {
    if columns != [] { SetMentionedIsNamed(columns[1..], n + 1, wide); }
  }

  predicate HarmlessNames(names: seq<string>, wide: char -> bool) {
    forall i :: 0 <= i < |names| ==> !HoldsPlaceholder(Quoted(names[i]), wide)
  }

  lemma {:induction false} HarmlessIsNoStrayNames(columns: seq<string>, wide: char -> bool)
    ensures HarmlessNames(columns, wide) <==> NoStrayNames(columns, wide)
  {
    if columns != [] {
      HarmlessIsNoStrayNames(columns[1..], wide);
      StrayMeaning(columns[0], wide);
      if HarmlessNames(columns, wide) {
        forall i | 0 <= i < |columns[1..]| ensures !HoldsPlaceholder(Quoted(columns[1..][i]), wide) {
          assert columns[1..][i] == columns[i + 1];
        }
      }
      if NoStrayNames(columns, wide) {
        forall i | 0 <= i < |columns| ensures !HoldsPlaceholder(Quoted(columns[i]), wide) {
          if i > 0 { assert columns[i] == columns[1..][i - 1]; }
        }
      }
    }
  }

  lemma EndsWhere(conditions: seq<Condition>, ending: string, wide: char -> bool)
    requires Ends(ending, wide)
    ensures Ends(WhereText(conditions) + ending, wide)
  {
    if conditions == [] {
      assert WhereText(conditions) + ending == ending;
    } else {
      assert (WhereText(conditions) + ending)[0] == ' ';
    }
  }

  lemma FoundHead(table: string, rest: string, wide: char -> bool)
    ensures Found("UPDATE " + Quoted(table) + " SET " + rest, wide) == Stray(table, wide) + Found(rest, wide)
  {
    var tail := Quoted(table) + " SET " + rest;
    assert "UPDATE " + Quoted(table) + " SET " + rest == "UPDATE " + tail;
    ScanAfter("UPDATE ", tail, ' ', wide);
    FoundQuoted(table, " SET ", rest, wide);
  }

  /** What the whole text of an UPDATE mentions. */
  function UpdateMentioned(table: string, columns: seq<string>, filters: seq<Filter>, wide: char -> bool): seq<string> {
    Stray(table, wide) + (SetMentioned(columns, 0, wide) + MentionedInOrder(ConditionsFor(filters), wide))
  }

  lemma UpdateSplit(table: string, columns: seq<string>, conditions: seq<Condition>)
    ensures UpdateText(table, columns, conditions)
         == "UPDATE " + Quoted(table) + " SET " + (SetText(columns, 0) + (WhereText(conditions) + ENDING))
  {
  }

  lemma FoundWhereEnd(filters: seq<Filter>, ending: string, wide: char -> bool)
    requires Ends(ending, wide) && ':' !in ending
    ensures Found(WhereText(ConditionsFor(filters)) + ending, wide) == MentionedInOrder(ConditionsFor(filters), wide)
  {
    WhereTextThen(filters, ending, wide);
    ScanPlain(ending, ' ', wide);
  }

  lemma FoundSetAndWhere(columns: seq<string>, filters: seq<Filter>, ending: string, wide: char -> bool)
    requires columns != [] && Ends(ending, wide) && ':' !in ending
    ensures Found(SetText(columns, 0) + (WhereText(ConditionsFor(filters)) + ending), wide)
         == SetMentioned(columns, 0, wide) + MentionedInOrder(ConditionsFor(filters), wide)
  {
    EndsWhere(ConditionsFor(filters), ending, wide);
    FoundSet(columns, 0, WhereText(ConditionsFor(filters)) + ending, wide);
    FoundWhereEnd(filters, ending, wide);
  }

  lemma UpdateTextFound(table: string, columns: seq<string>, filters: seq<Filter>, wide: char -> bool)
    requires columns != []
    ensures Found(UpdateText(table, columns, ConditionsFor(filters)), wide) == UpdateMentioned(table, columns, filters, wide)
  {
    UpdateSplit(table, columns, ConditionsFor(filters));
    FoundHead(table, SetText(columns, 0) + (WhereText(ConditionsFor(filters)) + ENDING), wide);
    FoundSetAndWhere(columns, filters, ENDING, wide);
  }

  predicate HarmlessUpdate(table: string, columns: seq<string>, filters: seq<Filter>, wide: char -> bool) {
    !HoldsPlaceholder(Quoted(table), wide) && HarmlessNames(columns, wide) && HarmlessColumns(filters, wide)
  }

  /** The whole text of an UPDATE mentions exactly the parameters of its SET clause and then those
      of its WHERE clause, if and only if neither the table nor a column is taken for one. */
  lemma UpdateTextMentions(table: string, columns: seq<string>, values: seq<Value>, filters: seq<Filter>, wide: char -> bool)
    requires columns != [] && |columns| == |values|
    ensures Found(UpdateText(table, columns, ConditionsFor(filters)), wide)
         == Names(SetBindings(values)) + Names(Bindings(filters))
       <==> HarmlessUpdate(table, columns, filters, wide)
  {
    UpdateTextFound(table, columns, filters, wide);
    StrayMeaning(table, wide);
    HarmlessIsNoStrayNames(columns, wide);
    SetMentionedIsNamed(columns, 0, wide);
    SetNamesInOrder(values, 0, |values|);
    MentionedAgainstBindings(filters, wide);
    assert SetNamesFrom(|values|, 0) == Names(SetBindings(values));
  }
}

/** Reading the query builder's SQL text back: a reader that knows only SQL's own tokens recovers
    from the text of a clause the conditions it was built from (db/db_client.py). */
module QueryRead {
  import opened Text
  import opened QueryBuilder
  import opened QueryText

  // ------------------------------------------------------------------
  // Tokens
  // ------------------------------------------------------------------

  /** The text before the first of the stopping characters. */
  function Upto(s: string, stops: string): (taken: string)
    ensures taken <= s && (|taken| < |s| ==> s[|taken|] in stops)
    ensures forall i :: 0 <= i < |taken| ==> taken[i] !in stops
  {
    if s == "" || s[0] in stops then "" else [s[0]] + Upto(s[1..], stops)
  }

  /** What follows a token. */
  function After(s: string, token: string): Option<string> {
    if token <= s then Some(s[|token|..]) else None
  }

  /** A double-quoted identifier. */
  function ReadQuoted(s: string): Option<(string, string)> {
    match After(s, "\"")
    case None => None
    case Some(body) =>
      var name := Upto(body, "\"");
      if |name| == |body| then None else Some((name, body[|name| + 1..]))
  }

  /** A placeholder. */
  function ReadName(s: string): Option<(string, string)> {
    match After(s, ":")
    case None => None
    case Some(body) =>
      var name := Upto(body, " ,)");
      if name == "" then None else Some((name, body[|name|..]))
  }

  /** The comparison operators of SQL. */
  function ReadOp(word: string): Option<Op> {
    if word == "=" then Some(Eq)
    else if word == "!=" then Some(Neq)
    else if word == ">" then Some(Gt)
    else if word == ">=" then Some(Gte)
    else if word == "<" then Some(Lt)
    else if word == "<=" then Some(Lte)
    else if word == "LIKE" then Some(Like)
    else if word == "ILIKE" then Some(ILike)
    else None
  }

  /** The placeholders of a list up to its closing bracket. */
  function ReadNames(s: string): Option<(seq<string>, string)>
    decreases |s|
  {
    match ReadName(s)
    case None => None
    case Some((name, rest)) =>
      if ")" <= rest then Some(([name], rest[1..]))
      else if ", " <= rest then
        (match ReadNames(rest[2..])
         case None => None
         case Some((names, left)) => Some(([name] + names, left)))
      else None
  }

  function ReadList(s: string): Option<(seq<string>, string)> {
    if ")" <= s then Some(([], s[1..])) else ReadNames(s)
  }

  /** What comes after a column, from its operator on. */
  function ReadRest(column: string, word: string, s: string): Option<(Condition, string)> {
    if word == "IS" && "NULL" <= s then Some((IsNull(column), s[4..]))
    else if word == "IN" then
      (match After(s, "(")
       case None => None
       case Some(list) =>
         match ReadList(list)
         case None => None
         case Some((names, left)) => Some((Membership(column, names), left)))
    else
      match ReadName(s)
      case None => None
      case Some((name, left)) =>
        if word == "IS" then Some((IsParam(column, name), left))
        else if ReadOp(word).Some? then Some((Comparison(column, ReadOp(word).value, name), left))
        else None
  }

  function ReadCondition(s: string): Option<(Condition, string)> {
    match ReadQuoted(s)
    case None => None
    case Some((column, rest)) =>
      match After(rest, " ")
      case None => None
      case Some(more) =>
        var word := Upto(more, " ");
        match After(more[|word|..], " ")
        case None => None
        case Some(left) => ReadRest(column, word, left)
  }

  /** Conditions joined by AND, and what is left of the text. */
  function ReadConditions(s: string): Option<(seq<Condition>, string)>
    decreases |s|
  {
    match ReadCondition(s)
    case None => None
    case Some((c, rest)) =>
      match After(rest, " AND ")
      case None => Some(([c], rest))
      case Some(more) =>
        if |more| >= |s| then None
        else
          match ReadConditions(more)
          case None => None
          case Some((conditions, left)) => Some(([c] + conditions, left))
  }

  function ReadWhere(s: string): Option<(seq<Condition>, string)> {
    match After(s, " WHERE ")
    case None => Some(([], s))
    case Some(more) => ReadConditions(more)
  }

  // ------------------------------------------------------------------
  // Reading what was written
  // ------------------------------------------------------------------

  predicate StopsAt(s: string, stops: string) {
    s == "" || s[0] in stops
  }

  predicate Without(s: string, stops: string) {
    forall i :: 0 <= i < |s| ==> s[i] !in stops
  }

  lemma {:induction false} UptoWritten(a: string, rest: string, stops: string)
    requires Without(a, stops) && StopsAt(rest, stops)
    ensures Upto(a + rest, stops) == a
  {
    if a == "" {
      assert a + rest == rest;
    } else {
      assert (a + rest)[1..] == a[1..] + rest;
      UptoWritten(a[1..], rest, stops);
    }
  }

  lemma AfterWritten(token: string, rest: string)
    ensures After(token + rest, token) == Some(rest)
  {
  }

  lemma DropWritten(a: string, b: string)
    ensures (a + b)[|a|..] == b
  {
  }

  lemma QuoteStops(column: string, rest: string)
    requires '"' in column
    ensures |Upto(column + rest, "\"")| < |column|
  {
    var i :| 0 <= i < |column| && column[i] == '"';
    assert (column + rest)[i] == '"';
  }

  /** A quoted identifier is read back, and nothing is lost, exactly if it holds no quote. */
  lemma QuotedWritten(column: string, rest: string)
    ensures ReadQuoted(Quoted(column) + rest).Some?
    ensures ReadQuoted(Quoted(column) + rest).value.0 == column <==> '"' !in column
    ensures '"' !in column ==> ReadQuoted(Quoted(column) + rest) == Some((column, rest))
  {
    var close := "\"" + rest;
    assert Quoted(column) + rest == "\"" + (column + close);
    AfterWritten("\"", column + close);
    if '"' in column {
      QuoteStops(column, close);
    } else {
      UptoWritten(column, close, "\"");
      DropWritten(column, close);
      assert (column + close)[|column| + 1..] == rest;
    }
  }

  /** A name made of ASCII word characters. */
  predicate PlainName(name: string) {
    name != "" && Without(name, " ,)")
  }

  predicate PlainNames(names: seq<string>) {
    forall i :: 0 <= i < |names| ==> PlainName(names[i])
  }

  lemma NameWritten(name: string, rest: string)
    requires PlainName(name) && StopsAt(rest, " ,)")
    ensures ReadName(ParamText(name) + rest) == Some((name, rest))
  {
    assert ParamText(name) + rest == ":" + (name + rest);
    AfterWritten(":", name + rest);
    UptoWritten(name, rest, " ,)");
  }

  lemma {:induction false} NamesWritten(names: seq<string>, close: string, rest: string)
    requires names != [] && PlainNames(names) && close == ")"
    ensures ReadNames(Join(ParamTexts(names), ", ") + (close + rest)) == Some((names, rest))
    decreases |names|
  {
    if |names| == 1 {
      JoinOne(names, ", ");
      NameWritten(names[0], close + rest);
      assert names == [names[0]];
    } else {
      JoinFirst(names, ", ", close + rest);
      NamesWritten(names[1..], close, rest);
      MoreNames(names[0], ", ", Join(ParamTexts(names[1..]), ", ") + (close + rest));
      assert names == [names[0]] + names[1..];
    }
  }

  lemma MoreNames(name: string, sep: string, rest: string)
    requires PlainName(name) && sep == ", " && ReadNames(rest).Some?
    ensures ReadNames(ParamText(name) + (sep + rest)) == Some(([name] + ReadNames(rest).value.0, ReadNames(rest).value.1))
  {
    NameWritten(name, sep + rest);
    DropWritten(sep, rest);
  }

  lemma OpWritten(op: Op)
    ensures ReadOp(OpText(op)) == Some(op) && Without(OpText(op), " ") && OpText(op) != "IS" && OpText(op) != "IN"
  {
    assert OpText(op) == "ILIKE" ==> |OpText(op)| == 5;
  }

  /** The column and the word after it are read off. */
  lemma HeadWritten(column: string, word: string, rest: string)
    requires Without(word, " ")
    ensures var text := Quoted(column) + (" " + (word + (" " + rest)));
            && (ReadCondition(text).Some? && ReadCondition(text).value.0.column == column ==> '"' !in column)
            && ('"' !in column ==> ReadCondition(text) == ReadRest(column, word, rest))
  {
    var tail := " " + (word + (" " + rest));
    QuotedWritten(column, tail);
    AfterWritten(" ", word + (" " + rest));
    UptoWritten(word, " " + rest, " ");
    DropWritten(word, " " + rest);
    AfterWritten(" ", rest);
  }

  lemma RestKeepsColumn(column: string, word: string, s: string)
    ensures ReadRest(column, word, s).Some? ==> ReadRest(column, word, s).value.0.column == column
  {
  }

  /** The word after the column of a condition. */
  function WordOf(c: Condition): string {
    match c
    case Comparison(_, op, _) => OpText(op)
    case Membership(_, _) => "IN"
    case _ => "IS"
  }

  /** The text after that word. */
  function TailOf(c: Condition): string {
    match c
    case Comparison(_, _, name) => ParamText(name)
    case IsNull(_) => "NULL"
    case IsParam(_, name) => ParamText(name)
    case Membership(_, names) => "(" + Join(ParamTexts(names), ", ") + ")"
  }

  lemma Regroup(column: string, blank: string, word: string, tail: string, s: string)
    ensures column + blank + word + blank + tail + s == column + (blank + (word + (blank + (tail + s))))
  {
  }

  lemma ListParts(column: string, names: seq<string>)
    ensures ConditionText(Membership(column, names))
         == Quoted(column) + " " + "IN" + " " + ("(" + Join(ParamTexts(names), ", ") + ")")
  {
    assert " IN (" == " " + "IN" + " " + "(";
  }

  lemma ParamParts(column: string, name: string)
    ensures ConditionText(IsParam(column, name)) == Quoted(column) + " " + "IS" + " " + ParamText(name)
  {
    assert " IS " == " " + "IS" + " ";
  }

  lemma NullParts(column: string)
    ensures ConditionText(IsNull(column)) == Quoted(column) + " " + "IS" + " " + "NULL"
  {
    assert " IS NULL" == " " + "IS" + " " + "NULL";
  }

  lemma ThreeParts(c: Condition)
    ensures ConditionText(c) == Quoted(c.column) + " " + WordOf(c) + " " + TailOf(c)
    ensures Without(WordOf(c), " ")
  {
    match c {
      case Comparison(column, op, name) =>
        OpWritten(op);
        assert ConditionText(c) == Quoted(column) + " " + OpText(op) + " " + ParamText(name);
      case IsNull(column) => NullParts(column);
      case IsParam(column, name) => ParamParts(column, name);
      case Membership(column, names) => ListParts(column, names);
    }
  }

  lemma ConditionParts(c: Condition, s: string)
    ensures ConditionText(c) + s == Quoted(c.column) + (" " + (WordOf(c) + (" " + (TailOf(c) + s))))
    ensures Without(WordOf(c), " ")
  {
    ThreeParts(c);
    Regroup(Quoted(c.column), " ", WordOf(c), TailOf(c), s);
  }

  lemma TailWritten(c: Condition, s: string)
    requires PlainNames(NamesOf(c)) && StopsAt(s, " ,)")
    ensures ReadRest(c.column, WordOf(c), TailOf(c) + s) == Some((c, s))
  {
    match c {
      case Comparison(_, op, name) =>
        assert PlainName(NamesOf(c)[0]);
        OpWritten(op);
        NameWritten(name, s);
      case IsNull(_) =>
        DropWritten("NULL", s);
      case IsParam(_, name) =>
        assert PlainName(NamesOf(c)[0]);
        NameWritten(name, s);
        assert (TailOf(c) + s)[0] == ':';
      case Membership(column, names) =>
        assert NamesOf(c) == names;
        ListWritten(column, names, ")", s);
    }
  }

  lemma ListWritten(column: string, names: seq<string>, close: string, s: string)
    requires PlainNames(names) && close == ")"
    ensures ReadRest(column, "IN", "(" + Join(ParamTexts(names), ", ") + close + s) == Some((Membership(column, names), s))
  {
    var joined := Join(ParamTexts(names), ", ");
    Bracketed("(", joined, close, s);
    ListRead(names, close, s);
  }

  lemma Bracketed(open: string, list: string, close: string, s: string)
    ensures After(open + list + close + s, open) == Some(list + (close + s))
  {
    assert open + list + close + s == open + (list + (close + s));
    AfterWritten(open, list + (close + s));
  }

  lemma ListRead(names: seq<string>, close: string, s: string)
    requires PlainNames(names) && close == ")"
    ensures ReadList(Join(ParamTexts(names), ", ") + (close + s)) == Some((names, s))
  {
    if names == [] {
      assert Join(ParamTexts(names), ", ") + (close + s) == close + s;
      DropWritten(close, s);
    } else {
      NamesWritten(names, close, s);
      NamesDoNotClose(names, close + s);
    }
  }

  lemma NamesDoNotClose(names: seq<string>, s: string)
    requires names != []
    ensures (Join(ParamTexts(names), ", ") + s)[0] == ':'
  {
    if |names| == 1 { JoinOne(names, ", "); } else { JoinFirst(names, ", ", s); }
  }

  /** A condition is read back exactly if its column holds no quote. */
  lemma ConditionWritten(c: Condition, s: string)
    requires PlainNames(NamesOf(c)) && StopsAt(s, " ,)")
    ensures '"' !in c.column ==> ReadCondition(ConditionText(c) + s) == Some((c, s))
    ensures ReadCondition(ConditionText(c) + s).Some? && ReadCondition(ConditionText(c) + s).value.0 == c ==> '"' !in c.column
  {
    ConditionParts(c, s);
    HeadWritten(c.column, WordOf(c), TailOf(c) + s);
    TailWritten(c, s);
  }

  /** What ends a list of conditions: nothing, or a blank that does not start another AND. */
  predicate EndsList(s: string) {
    StopsAt(s, " ") && After(s, " AND ").None?
  }

  ghost predicate AllPlain(conditions: seq<Condition>) {
    forall i :: 0 <= i < |conditions| ==> PlainNames(NamesOf(conditions[i]))
  }

  predicate NoQuotes(conditions: seq<Condition>) {
    conditions == [] || ('"' !in conditions[0].column && NoQuotes(conditions[1..]))
  }

  /** Read as these conditions, whatever may be left. */
  ghost predicate ReadAs(s: string, conditions: seq<Condition>) {
    ReadConditions(s).Some? && ReadConditions(s).value.0 == conditions
  }

  lemma {:induction false} ConditionsWritten(conditions: seq<Condition>, s: string)
    requires conditions != [] && AllPlain(conditions) && EndsList(s)
    ensures NoQuotes(conditions) ==> ReadConditions(Join(ConditionTexts(conditions), " AND ") + s) == Some((conditions, s))
    ensures ReadAs(Join(ConditionTexts(conditions), " AND ") + s, conditions) ==> NoQuotes(conditions)
    decreases |conditions|
  {
    if |conditions| == 1 {
      LastCondition(conditions, " AND ", s);
    } else {
      JoinConditions(conditions, " AND ", s);
      ConditionsWritten(conditions[1..], s);
      FirstCondition(conditions[0], conditions[1..], " AND ", Join(ConditionTexts(conditions[1..]), " AND ") + s, s);
      assert conditions == [conditions[0]] + conditions[1..];
    }
  }

  lemma LastCondition(conditions: seq<Condition>, sep: string, s: string)
    requires |conditions| == 1 && AllPlain(conditions) && EndsList(s) && sep == " AND "
    ensures NoQuotes(conditions) ==> ReadConditions(Join(ConditionTexts(conditions), sep) + s) == Some((conditions, s))
    ensures ReadAs(Join(ConditionTexts(conditions), sep) + s, conditions) ==> NoQuotes(conditions)
  {
    OneCondition(conditions, sep, c => false);
    ConditionWritten(conditions[0], s);
    assert conditions == [conditions[0]] && NoQuotes(conditions[1..]);
  }

  lemma FirstCondition(c: Condition, more: seq<Condition>, sep: string, rest: string, s: string)
    requires PlainNames(NamesOf(c)) && sep == " AND "
    requires NoQuotes(more) ==> ReadConditions(rest) == Some((more, s))
    requires ReadAs(rest, more) ==> NoQuotes(more)
    ensures NoQuotes([c] + more) ==> ReadConditions(ConditionText(c) + (sep + rest)) == Some(([c] + more, s))
    ensures ReadAs(ConditionText(c) + (sep + rest), [c] + more) ==> NoQuotes([c] + more)
  {
    ConditionWritten(c, sep + rest);
    AfterWritten(sep, rest);
    assert ([c] + more)[1..] == more;
    if ReadAs(ConditionText(c) + (sep + rest), [c] + more) {
      FirstRead(c, more, ConditionText(c) + (sep + rest));
    }
  }

  lemma FirstRead(c: Condition, more: seq<Condition>, s: string)
    requires ReadAs(s, [c] + more)
    ensures ReadCondition(s).Some? && ReadCondition(s).value.0 == c
    ensures After(ReadCondition(s).value.1, " AND ").Some? ==> ReadAs(After(ReadCondition(s).value.1, " AND ").value, more)
  {
    var read := ReadConditions(s).value.0;
    assert read[0] == c && read[1..] == more;
  }

  // ------------------------------------------------------------------
  // The WHERE clause
  // ------------------------------------------------------------------

  const NONE: char -> bool := (c: char) => false

  lemma WordsArePlain(names: seq<string>)
    requires AreNames(names, NONE)
    ensures PlainNames(names)
  {
    forall i | 0 <= i < |names| ensures PlainName(names[i]) {
      assert IsName(names[i], NONE);
      forall k | 0 <= k < |names[i]| ensures names[i][k] !in " ,)" { assert IsWord(names[i][k], NONE); }
    }
  }

  lemma FiltersArePlain(filters: seq<Filter>)
    ensures AllPlain(ConditionsFor(filters))
  {
    forall i | 0 <= i < |filters| ensures PlainNames(NamesOf(ConditionsFor(filters)[i])) {
      GeneratedNames(filters[i], i, NONE);
      WordsArePlain(NamesOf(ConditionFor(filters[i], i)));
    }
  }

  predicate QuoteFree(names: seq<string>) {
    forall i :: 0 <= i < |names| ==> '"' !in names[i]
  }

  function Columns(filters: seq<Filter>): (columns: seq<string>)
    ensures |columns| == |filters| && forall i :: 0 <= i < |filters| ==> columns[i] == filters[i].column
  {
    seq(|filters|, i requires 0 <= i < |filters| => filters[i].column)
  }

  lemma {:induction false} NoQuotesAt(conditions: seq<Condition>)
    ensures NoQuotes(conditions) <==> forall i :: 0 <= i < |conditions| ==> '"' !in conditions[i].column
  {
    if conditions != [] {
      NoQuotesAt(conditions[1..]);
      assert forall i :: 1 <= i < |conditions| ==> conditions[i] == conditions[1..][i - 1];
      if forall i :: 0 <= i < |conditions| ==> '"' !in conditions[i].column {
        forall i | 0 <= i < |conditions[1..]| ensures '"' !in conditions[1..][i].column {
          assert '"' !in conditions[i + 1].column;
        }
      }
    }
  }

  lemma ColumnsQuoteFree(filters: seq<Filter>)
    ensures NoQuotes(ConditionsFor(filters)) <==> QuoteFree(Columns(filters))
  {
    NoQuotesAt(ConditionsFor(filters));
    forall i | 0 <= i < |filters| ensures ConditionsFor(filters)[i].column == Columns(filters)[i] {
    }
  }

  predicate EndsWhereText(s: string) {
    EndsList(s) && After(s, " WHERE ").None?
  }

  lemma WhereWritten(filters: seq<Filter>, s: string)
    requires EndsWhereText(s)
    ensures QuoteFree(Columns(filters)) ==> ReadWhere(WhereText(ConditionsFor(filters)) + s) == Some((ConditionsFor(filters), s))
    ensures (ReadWhere(WhereText(ConditionsFor(filters)) + s).Some?
             && ReadWhere(WhereText(ConditionsFor(filters)) + s).value.0 == ConditionsFor(filters)) ==> QuoteFree(Columns(filters))
  {
    var conditions := ConditionsFor(filters);
    ColumnsQuoteFree(filters);
    if conditions == [] {
      assert WhereText(conditions) + s == s;
    } else {
      FiltersArePlain(filters);
      WhereSplit(conditions, s);
      AfterWritten(" WHERE ", Join(ConditionTexts(conditions), " AND ") + s);
      ConditionsWritten(conditions, s);
    }
  }

  /** A WHERE clause is read back as the conditions it was built from, if and only if no column
      holds a double quote. */
  lemma WhereRoundTrip(filters: seq<Filter>)
    ensures ReadWhere(WhereText(ConditionsFor(filters))) == Some((ConditionsFor(filters), ""))
       <==> QuoteFree(Columns(filters))
  {
    WhereWritten(filters, "");
    assert WhereText(ConditionsFor(filters)) + "" == WhereText(ConditionsFor(filters));
  }

  /** What the database reads in the text of the clause is the conjunction of the filters. */
  lemma WhereTextMeaning(rel: Relation, filters: seq<Filter>, shared: Params, adapt: Value -> Value, row: Row)
    requires QuoteFree(Columns(filters))
    ensures ReadWhere(WhereText(ConditionsFor(filters))).Some?
    ensures var (read, left) := ReadWhere(WhereText(ConditionsFor(filters))).value;
            && left == "" && AllBound(read, Bound(shared, filters, adapt))
            && EvaluateAll(rel, read, Bound(shared, filters, adapt), row) == Conjunction(rel, filters, adapt, row)
  {
    WhereRoundTrip(filters);
    WhereClauseMeaning(rel, filters, shared, adapt, row);
  }

  /** What the operators mean for numbers. */
  ghost predicate OnNumbers(rel: Relation) {
    forall a, b ::
      && (rel(Eq, Int(a), Int(b)) <==> a == b) && (rel(Neq, Int(a), Int(b)) <==> a != b)
      && (rel(Gt, Int(a), Int(b)) <==> a > b) && (rel(Gte, Int(a), Int(b)) <==> a >= b)
      && (rel(Lt, Int(a), Int(b)) <==> a < b) && (rel(Lte, Int(a), Int(b)) <==> a <= b)
  }

  /** What an operator's text says of two numbers. */
  ghost predicate Says(text: string, m: int, n: int, holds: bool) {
    && (text == "=" ==> (holds <==> m == n)) && (text == "!=" ==> (holds <==> m != n))
    && (text == ">" ==> (holds <==> m > n)) && (text == ">=" ==> (holds <==> m >= n))
    && (text == "<" ==> (holds <==> m < n)) && (text == "<=" ==> (holds <==> m <= n))
  }

  lemma OpSays(rel: Relation, op: Op, m: int, n: int)
    requires OnNumbers(rel)
    ensures Says(OpText(op), m, n, rel(op, Int(m), Int(n)))
  {
    OpWritten(op);
  }

  /** A filter on a number keeps exactly the rows whose number compares as its text says. */
  lemma NumberFilter(rel: Relation, column: string, op: Op, n: int, m: int, row: Row)
    requires OnNumbers(rel) && '"' !in column && Cell(row, column) == Int(m)
    ensures var params := map["p0" := Int(n)];
            var read := ReadWhere(WhereText(ConditionsFor([Compare(column, op, Int(n))])));
            && read.Some? && AllBound(read.value.0, params)
            && Says(OpText(op), m, n, EvaluateAll(rel, read.value.0, params, row) == True)
  {
    assert FilterName(0) == "p0";
    OneFilterRead(Compare(column, op, Int(n)));
    CompareKeeps(rel, column, op, "p0", n, m, map["p0" := Int(n)], row);
    OpSays(rel, op, m, n);
  }

  lemma CompareKeeps(rel: Relation, column: string, op: Op, name: string, n: int, m: int, params: Params, row: Row)
    requires name in params && params[name] == Int(n) && Cell(row, column) == Int(m)
    ensures AllBound([Comparison(column, op, name)], params)
    ensures EvaluateAll(rel, [Comparison(column, op, name)], params, row) == True <==> rel(op, Int(m), Int(n))
  {
    OneEvaluated(rel, Comparison(column, op, name), params, row);
  }

  lemma OneFilterRead(f: Filter)
    requires '"' !in f.column
    ensures ReadWhere(WhereText(ConditionsFor([f]))) == Some(([ConditionFor(f, 0)], ""))
  {
    WhereRoundTrip([f]);
    assert ConditionsFor([f]) == [ConditionFor(f, 0)];
  }

  lemma OneEvaluated(rel: Relation, c: Condition, params: Params, row: Row)
    requires forall name :: name in NamesOf(c) ==> name in params
    ensures AllBound([c], params) && EvaluateAll(rel, [c], params, row) == Evaluate(rel, c, params, row)
  {
    assert [c][..0] == [];
  }

  // ------------------------------------------------------------------
  // The UPDATE
  // ------------------------------------------------------------------

  /** "column" = :name */
  function ReadAssign(s: string): Option<((string, string), string)> {
    match ReadQuoted(s)
    case None => None
    case Some((column, rest)) =>
      match After(rest, " = ")
      case None => None
      case Some(more) =>
        match ReadName(more)
        case None => None
        case Some((name, left)) => Some(((column, name), left))
  }

  function ReadAssigns(s: string): Option<(seq<(string, string)>, string)>
    decreases |s|
  {
    match ReadAssign(s)
    case None => None
    case Some((a, rest)) =>
      match After(rest, ", ")
      case None => Some(([a], rest))
      case Some(more) =>
        if |more| >= |s| then None
        else
          match ReadAssigns(more)
          case None => None
          case Some((assigns, left)) => Some(([a] + assigns, left))
  }

  /** What an UPDATE statement says: its table, its assignments and its conditions. */
  datatype Statement = Statement(table: string, assigns: seq<(string, string)>, conditions: seq<Condition>)

  function ReadUpdate(s: string): Option<Statement> {
    match After(s, "UPDATE ")
    case None => None
    case Some(head) =>
      match ReadQuoted(head)
      case None => None
      case Some((table, rest)) =>
        match After(rest, " SET ")
        case None => None
        case Some(more) =>
          ReadBody(table, more)
  }

  /** The assignments and the conditions of an UPDATE. */
  function ReadBody(table: string, s: string): Option<Statement> {
    match ReadAssigns(s)
    case None => None
    case Some((assigns, tail)) =>
      match ReadWhere(tail)
      case None => None
      case Some((conditions, left)) =>
        if left == " RETURNING *" then Some(Statement(table, assigns, conditions)) else None
  }

  /** Each column with the parameter of its place, from the n-th on. */
  function Assigned(columns: seq<string>, n: nat): seq<(string, string)> {
    if columns == [] then [] else [(columns[0], SetName(n))] + Assigned(columns[1..], n + 1)
  }

  lemma SetNameIsPlain(n: nat)
    ensures PlainName(SetName(n))
  {
    DecimalIsName("u", n, NONE);
    WordsArePlain([SetName(n)]);
    assert PlainName([SetName(n)][0]);
  }

  lemma AssignWritten(column: string, n: nat, s: string)
    requires StopsAt(s, " ,)")
    ensures '"' !in column ==> ReadAssign(AssignText(column, n) + s) == Some(((column, SetName(n)), s))
    ensures ReadAssign(AssignText(column, n) + s).Some? && ReadAssign(AssignText(column, n) + s).value.0.0 == column ==> '"' !in column
  {
    SetNameIsPlain(n);
    AssignParts(Quoted(column), " = ", ParamText(SetName(n)), s);
    QuotedWritten(column, " = " + (ParamText(SetName(n)) + s));
    AfterWritten(" = ", ParamText(SetName(n)) + s);
    NameWritten(SetName(n), s);
  }

  lemma AssignParts(quoted: string, sep: string, param: string, s: string)
    ensures quoted + sep + param + s == quoted + (sep + (param + s))
  {
  }

  predicate EndsAssigns(s: string) {
    StopsAt(s, " ,)") && After(s, ", ").None?
  }

  lemma {:induction false} AssignsWritten(columns: seq<string>, n: nat, s: string)
    requires columns != [] && EndsAssigns(s)
    ensures QuoteFree(columns) ==> ReadAssigns(SetText(columns, n) + s) == Some((Assigned(columns, n), s))
    ensures ReadAssigns(SetText(columns, n) + s).Some? && ReadAssigns(SetText(columns, n) + s).value.0 == Assigned(columns, n) ==>
              QuoteFree(columns)
    decreases |columns|
  {
    SetSplit(columns, n, s);
    if |columns| == 1 {
      assert columns == [columns[0]];
      LastAssign(columns[0], n, s);
    } else {
      AssignsWritten(columns[1..], n + 1, s);
      FirstAssign(columns, n, ", ", SetText(columns[1..], n + 1) + s, s);
    }
  }

  lemma LastAssign(column: string, n: nat, s: string)
    requires EndsAssigns(s)
    ensures Assigned([column], n) == [(column, SetName(n))]
    ensures '"' !in column ==> ReadAssigns(AssignText(column, n) + s) == Some(([(column, SetName(n))], s))
    ensures ReadAssigns(AssignText(column, n) + s).Some? && ReadAssigns(AssignText(column, n) + s).value.0 == [(column, SetName(n))] ==>
              '"' !in column
  {
    AssignWritten(column, n, s);
    assert Assigned([column][1..], n + 1) == [];
    var read := ReadAssigns(AssignText(column, n) + s);
    if read.Some? && read.value.0 == [(column, SetName(n))] { assert read.value.0[0].0 == column; }
  }

  lemma FirstAssign(columns: seq<string>, n: nat, sep: string, rest: string, s: string)
    requires |columns| >= 2 && sep == ", "
    requires QuoteFree(columns[1..]) ==> ReadAssigns(rest) == Some((Assigned(columns[1..], n + 1), s))
    requires ReadAssigns(rest).Some? && ReadAssigns(rest).value.0 == Assigned(columns[1..], n + 1) ==> QuoteFree(columns[1..])
    ensures var text := AssignText(columns[0], n) + (sep + rest);
            && (QuoteFree(columns) ==> ReadAssigns(text) == Some((Assigned(columns, n), s)))
            && (ReadAssigns(text).Some? && ReadAssigns(text).value.0 == Assigned(columns, n) ==> QuoteFree(columns))
  {
    var text := AssignText(columns[0], n) + (sep + rest);
    AssignWritten(columns[0], n, sep + rest);
    AfterWritten(sep, rest);
    QuoteFreeSplit(columns);
    if ReadAssigns(text).Some? && ReadAssigns(text).value.0 == Assigned(columns, n) {
      FirstAssignRead(text, (columns[0], SetName(n)), Assigned(columns[1..], n + 1));
    }
  }

  lemma FirstAssignRead(s: string, first: (string, string), more: seq<(string, string)>)
    requires ReadAssigns(s).Some? && ReadAssigns(s).value.0 == [first] + more
    ensures ReadAssign(s).Some? && ReadAssign(s).value.0 == first
    ensures After(ReadAssign(s).value.1, ", ").Some? ==>
              var read := ReadAssigns(After(ReadAssign(s).value.1, ", ").value);
              read.Some? && read.value.0 == more
  {
    var read := ReadAssigns(s).value.0;
    assert read[0] == first && read[1..] == more;
  }

  lemma QuoteFreeSplit(columns: seq<string>)
    requires columns != []
    ensures QuoteFree(columns) <==> '"' !in columns[0] && QuoteFree(columns[1..])
  {
    if QuoteFree(columns[1..]) {
      forall i | 1 <= i < |columns| ensures '"' !in columns[i] { assert columns[1..][i - 1] == columns[i]; }
    }
  }

  lemma UpdateHead(table: string, s: string)
    ensures '"' !in table ==> ReadUpdate("UPDATE " + Quoted(table) + " SET " + s) == ReadBody(table, s)
    ensures (ReadUpdate("UPDATE " + Quoted(table) + " SET " + s).Some?
             && ReadUpdate("UPDATE " + Quoted(table) + " SET " + s).value.table == table) ==> '"' !in table
  {
    HeadParts("UPDATE ", Quoted(table), " SET ", s);
    AfterWritten("UPDATE ", Quoted(table) + (" SET " + s));
    QuotedWritten(table, " SET " + s);
    AfterWritten(" SET ", s);
  }

  lemma HeadParts(word: string, quoted: string, set_: string, s: string)
    ensures word + quoted + set_ + s == word + (quoted + (set_ + s))
  {
  }

  lemma OtherStart(s: string, token: string)
    requires |s| > 1 && |token| > 1 && s[1] != token[1]
    ensures After(s, token).None?
  {
  }

  lemma EndingStarts()
    ensures |ENDING| > 1 && ENDING[0] == ' ' && ENDING[1] == 'R'
  {
    assert " RETURNING *" == [' ', 'R'] + "ETURNING *";
  }

  lemma TailEnds(conditions: seq<Condition>)
    ensures EndsAssigns(WhereText(conditions) + ENDING) && EndsWhereText(ENDING)
  {
    EndingStarts();
    OtherStart(ENDING, " AND ");
    OtherStart(ENDING, " WHERE ");
    if conditions == [] {
      assert WhereText(conditions) + ENDING == ENDING;
    } else {
      assert (WhereText(conditions) + ENDING)[0] == ' ';
    }
  }

  lemma BodyWritten(table: string, columns: seq<string>, filters: seq<Filter>)
    requires columns != []
    ensures ReadBody(table, SetText(columns, 0) + (WhereText(ConditionsFor(filters)) + ENDING))
         == Some(Statement(table, Assigned(columns, 0), ConditionsFor(filters)))
       <==> QuoteFree(columns) && QuoteFree(Columns(filters))
  {
    var tail := WhereText(ConditionsFor(filters)) + ENDING;
    TailEnds(ConditionsFor(filters));
    AssignsWritten(columns, 0, tail);
    WhereWritten(filters, ENDING);
  }

  /** An UPDATE is read back as its table, each of its columns with the parameter of its place,
      and the conditions it was built from, if and only if no name in it holds a double quote. */
  lemma UpdateRoundTrip(table: string, columns: seq<string>, filters: seq<Filter>)
    requires columns != []
    ensures ReadUpdate(UpdateText(table, columns, ConditionsFor(filters)))
         == Some(Statement(table, Assigned(columns, 0), ConditionsFor(filters)))
       <==> '"' !in table && QuoteFree(columns) && QuoteFree(Columns(filters))
  {
    UpdateSplit(table, columns, ConditionsFor(filters));
    UpdateHead(table, SetText(columns, 0) + (WhereText(ConditionsFor(filters)) + ENDING));
    BodyWritten(table, columns, filters);
  }
}

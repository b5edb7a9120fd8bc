/** The fluent query builder (db/db_client.py): filters compiled to a WHERE clause and a
    parameter dictionary, shared with the SET clause of an UPDATE. The clause is proved to
    mean the conjunction of the filters under SQL's three truth values. */
module QueryBuilder {
  import opened Text

  datatype Value = Null | Int(n: int) | Str(s: string) | Bool(b: bool) | Json(text: string)

  datatype Op = Eq | Neq | Gt | Gte | Lt | Lte | Like | ILike

  datatype Filter =
    | Compare(column: string, op: Op, value: Value)
    | Is(column: string, value: Value)
    | In(column: string, values: seq<Value>)

  /** The conditions of a WHERE clause, naming their parameters. */
  datatype Condition =
    | Comparison(column: string, op: Op, name: string)
    | IsNull(column: string)
    | IsParam(column: string, name: string)
    | Membership(column: string, names: seq<string>)

  type Params = map<string, Value>

  // ------------------------------------------------------------------
  // Parameter names
  // ------------------------------------------------------------------

  function FilterName(i: nat): string {
    "p" + Decimal(i)
  }

  function ElementName(i: nat, j: nat): string {
    FilterName(i) + "_" + Decimal(j)
  }

  function SetName(i: nat): string {
    "u" + Decimal(i)
  }

  /** The names of the first n elements of an IN list. */
  function ElementNames(i: nat, n: nat): (names: seq<string>)
    ensures |names| == n
    ensures forall j :: 0 <= j < n ==> names[j] == ElementName(i, j)
  {
    seq(n, j requires 0 <= j < n => ElementName(i, j))
  }

  lemma DecimalHasNoUnderscore(n: nat)
    ensures '_' !in Decimal(n)
  {
  }

  /** No two generated names are equal unless they were generated for the same place. */
  lemma NamesNeverCollide(i: nat, j: nat, k: nat, l: nat)
    ensures FilterName(i) == FilterName(k) <==> i == k
    ensures ElementName(i, j) == ElementName(k, l) <==> i == k && j == l
    ensures FilterName(i) != ElementName(k, l)
    ensures SetName(i) != FilterName(k) && SetName(i) != ElementName(k, l)
    ensures SetName(i) == SetName(k) <==> i == k
  {
    assert FilterName(i)[1..] == Decimal(i) && FilterName(k)[1..] == Decimal(k);
    assert SetName(i)[1..] == Decimal(i) && SetName(k)[1..] == Decimal(k);
    DecimalInjective(i, k);
    DecimalInjective(j, l);
    ElementNameParts(i, j);
    ElementNameParts(k, l);
    DecimalHasNoUnderscore(i);
    DecimalHasNoUnderscore(k);
    assert SetName(i)[0] == 'u' && FilterName(k)[0] == 'p' && ElementName(k, l)[0] == 'p';
  }

  lemma ElementNameParts(i: nat, j: nat)
    ensures SplitOnce(ElementName(i, j)[1..], '_') == Some((Decimal(i), Decimal(j)))
    ensures '_' in ElementName(i, j)[1..]
  {
    DecimalHasNoUnderscore(i);
    PartsOfTail('p', Decimal(i), Decimal(j));
  }

  lemma PartsOfTail(head: char, a: string, b: string)
    requires '_' !in a
    ensures SplitOnce(([head] + a + "_" + b)[1..], '_') == Some((a, b))
    ensures '_' in ([head] + a + "_" + b)[1..]
  {
    assert ([head] + a + "_" + b)[1..] == a + ['_'] + b;
    assert (a + ['_'] + b)[|a|] == '_';
    SplitOnceAt(a, '_', b);
  }

  // ------------------------------------------------------------------
  // Compilation
  // ------------------------------------------------------------------

  /** The condition the filter at position i compiles to. */
  function ConditionFor(f: Filter, i: nat): Condition {
    match f
    case Compare(column, op, _) => Comparison(column, op, FilterName(i))
    case Is(column, value) => if value.Null? then IsNull(column) else IsParam(column, FilterName(i))
    case In(column, values) => Membership(column, ElementNames(i, |values|))
  }

  /** The names a condition mentions, in order. */
  function NamesOf(c: Condition): seq<string> {
    match c
    case Comparison(_, _, name) => [name]
    case IsNull(_) => []
    case IsParam(_, name) => [name]
    case Membership(_, names) => names
  }

  /** The placeholders of a clause, in the order of its text. */
  function Placeholders(conditions: seq<Condition>): seq<string> {
    if conditions == [] then []
    else Placeholders(conditions[..|conditions| - 1]) + NamesOf(conditions[|conditions| - 1])
  }

  datatype Binding = Binding(name: string, value: Value)

  /** The parameters the filter at position i binds. */
  function BindingsOf(f: Filter, i: nat): seq<Binding> {
    match f
    case Compare(_, _, value) => [Binding(FilterName(i), value)]
    case Is(_, value) => if value.Null? then [] else [Binding(FilterName(i), value)]
    case In(_, values) => ElementBindings(i, values)
  }

  function ElementBindings(i: nat, values: seq<Value>): (bindings: seq<Binding>)
    ensures |bindings| == |values|
    ensures forall j :: 0 <= j < |values| ==> bindings[j] == Binding(ElementName(i, j), values[j])
  {
    seq(|values|, j requires 0 <= j < |values| => Binding(ElementName(i, j), values[j]))
  }

  function Bindings(filters: seq<Filter>): seq<Binding> {
    if filters == [] then []
    else Bindings(filters[..|filters| - 1]) + BindingsOf(filters[|filters| - 1], |filters| - 1)
  }

  function ConditionsFor(filters: seq<Filter>): seq<Condition> {
    seq(|filters|, i requires 0 <= i < |filters| => ConditionFor(filters[i], i))
  }

  /** Binding one parameter after the other, each value adapted for the driver. */
  function BindAll(params: Params, bindings: seq<Binding>, adapt: Value -> Value): Params {
    if bindings == [] then params
    else
      var last := bindings[|bindings| - 1];
      BindAll(params, bindings[..|bindings| - 1], adapt)[last.name := adapt(last.value)]
  }

  function Bound(params: Params, filters: seq<Filter>, adapt: Value -> Value): Params {
    BindAll(params, Bindings(filters), adapt)
  }

  lemma {:induction false} BindAppend(params: Params, bindings: seq<Binding>, more: seq<Binding>, adapt: Value -> Value)
    ensures BindAll(params, bindings + more, adapt) == BindAll(BindAll(params, bindings, adapt), more, adapt)
    decreases |more|
  {
    if more == [] {
      assert bindings + more == bindings;
    } else {
      var n := |more| - 1;
      assert (bindings + more)[..|bindings| + n] == bindings + more[..n];
      BindAppend(params, bindings, more[..n], adapt);
    }
  }

  lemma BindOne(params: Params, name: string, value: Value, adapt: Value -> Value)
    ensures BindAll(params, [Binding(name, value)], adapt) == params[name := adapt(value)]
  {
    assert BindAll(params, [Binding(name, value)][..0], adapt) == params;
  }

  lemma BoundGrows(params: Params, filters: seq<Filter>, i: nat, adapt: Value -> Value)
    requires i < |filters|
    ensures Bound(params, filters[..i + 1], adapt)
         == BindAll(Bound(params, filters[..i], adapt), BindingsOf(filters[i], i), adapt)
  {
    assert filters[..i + 1][..i] == filters[..i];
    BindAppend(params, Bindings(filters[..i]), BindingsOf(filters[i], i), adapt);
  }

  lemma ConditionsGrow(filters: seq<Filter>, i: nat)
    requires i < |filters|
    ensures ConditionsFor(filters[..i + 1]) == ConditionsFor(filters[..i]) + [ConditionFor(filters[i], i)]
  {
  }

  /** The builder: a table query and its filters. */
  class TableQuery {
    var filters: seq<Filter>

    constructor ()
      ensures filters == []
    {
      filters := [];
    }

    /** eq, neq, gt, gte, lt, lte, like, ilike, is_ and in_ each append one filter. */
    method Where(f: Filter)
      modifies this
      ensures filters == old(filters) + [f]
    {
      filters := filters + [f];
    }

    /** _build_where_clause: the conditions of the clause and the dictionary with their
        parameters added. */
    method BuildWhereClause(params: Params, adapt: Value -> Value) returns (conditions: seq<Condition>, out: Params)
      ensures conditions == ConditionsFor(filters)
      ensures out == Bound(params, filters, adapt)
    {
      conditions, out := [], params;
      var i := 0;
      while i < |filters|
        invariant 0 <= i <= |filters|
        invariant conditions == ConditionsFor(filters[..i])
        invariant out == Bound(params, filters[..i], adapt)
      {
        var condition;
        condition, out := BindFilter(filters[i], i, out, adapt);
        BoundGrows(params, filters, i, adapt);
        ConditionsGrow(filters, i);
        conditions := conditions + [condition];
        i := i + 1;
      }
      assert filters[..i] == filters;
    }
  }

  /** One turn of the loop over the filters. */
  method BindFilter(f: Filter, i: nat, params: Params, adapt: Value -> Value)
      returns (condition: Condition, out: Params)
    ensures condition == ConditionFor(f, i)
    ensures out == BindAll(params, BindingsOf(f, i), adapt)
  {
    out := params;
    match f {
      case Compare(column, op, value) =>
        condition := Comparison(column, op, FilterName(i));
        BindOne(out, FilterName(i), value, adapt);
        out := out[FilterName(i) := adapt(value)];
      case Is(column, value) =>
        if value.Null? {
          condition := IsNull(column);
        } else {
          condition := IsParam(column, FilterName(i));
          BindOne(out, FilterName(i), value, adapt);
          out := out[FilterName(i) := adapt(value)];
        }
      case In(column, values) =>
        var names;
        names, out := BindElements(i, values, out, adapt);
        condition := Membership(column, names);
    }
  }

  /** The inner loop over an IN list. */
  method BindElements(i: nat, values: seq<Value>, params: Params, adapt: Value -> Value)
      returns (names: seq<string>, out: Params)
    ensures names == ElementNames(i, |values|)
    ensures out == BindAll(params, ElementBindings(i, values), adapt)
  {
    names, out := [], params;
    var bindings := ElementBindings(i, values);
    var j := 0;
    while j < |values|
      invariant 0 <= j <= |values|
      invariant names == ElementNames(i, j)
      invariant out == BindAll(params, bindings[..j], adapt)
    {
      names := names + [ElementName(i, j)];
      assert bindings[..j + 1][..j] == bindings[..j];
      out := out[ElementName(i, j) := adapt(values[j])];
      j := j + 1;
    }
    assert bindings[..j] == bindings;
  }

  // ------------------------------------------------------------------
  // Every name is bound once
  // ------------------------------------------------------------------

  function Names(bindings: seq<Binding>): (names: seq<string>)
    ensures |names| == |bindings| && forall k :: 0 <= k < |bindings| ==> names[k] == bindings[k].name
  {
    seq(|bindings|, k requires 0 <= k < |bindings| => bindings[k].name)
  }

  predicate NoRepeats(names: seq<string>) {
    forall i, j :: 0 <= i < j < |names| ==> names[i] != names[j]
  }

  ghost predicate NameOfFilter(name: string, i: nat) {
    name == FilterName(i) || exists j: nat :: name == ElementName(i, j)
  }

  lemma OwnNames(f: Filter, i: nat)
    ensures NamesOf(ConditionFor(f, i)) == Names(BindingsOf(f, i))
    ensures NoRepeats(Names(BindingsOf(f, i)))
    ensures forall b :: b in BindingsOf(f, i) ==> NameOfFilter(b.name, i)
  {
    if f.In? {
      var names := ElementNames(i, |f.values|);
      forall j, l | 0 <= j < l < |names| ensures names[j] != names[l] {
        NamesNeverCollide(i, j, i, l);
      }
    }
  }

  lemma NamesAppend(a: seq<Binding>, b: seq<Binding>)
    ensures Names(a + b) == Names(a) + Names(b)
  {
  }

  /** What the text of the clause mentions is what the dictionary was given. */
  lemma {:induction false} PlaceholdersAreBindings(filters: seq<Filter>)
    ensures Placeholders(ConditionsFor(filters)) == Names(Bindings(filters))
  {
    if filters != [] {
      var n := |filters| - 1;
      var conditions := ConditionsFor(filters);
      assert conditions[..n] == ConditionsFor(filters[..n]);
      PlaceholdersAreBindings(filters[..n]);
      OwnNames(filters[n], n);
      NamesAppend(Bindings(filters[..n]), BindingsOf(filters[n], n));
    }
  }

  lemma NamesOfDifferentFilters(name: string, i: nat, k: nat)
    requires NameOfFilter(name, i) && NameOfFilter(name, k)
    ensures i == k
  {
    if name == FilterName(i) {
      if name == FilterName(k) {
        NamesNeverCollide(i, 0, k, 0);
      } else {
        var l: nat :| name == ElementName(k, l);
        NamesNeverCollide(i, 0, k, l);
      }
    } else {
      var j: nat :| name == ElementName(i, j);
      if name == FilterName(k) {
        NamesNeverCollide(k, 0, i, j);
      } else {
        var l: nat :| name == ElementName(k, l);
        NamesNeverCollide(i, j, k, l);
      }
    }
  }

  ghost predicate NameBelow(name: string, n: nat) {
    exists i: nat :: i < n && NameOfFilter(name, i)
  }

  lemma {:induction false} BindingsBelong(filters: seq<Filter>, b: Binding)
    requires b in Bindings(filters)
    ensures NameBelow(b.name, |filters|)
  {
    var n := |filters| - 1;
    if b in Bindings(filters[..n]) {
      BindingsBelong(filters[..n], b);
      var i: nat :| i < n && NameOfFilter(b.name, i);
      assert i < |filters|;
    } else {
      OwnNames(filters[n], n);
    }
  }

  lemma {:induction false} BindingsAreDistinct(filters: seq<Filter>)
    ensures NoRepeats(Names(Bindings(filters)))
  {
    if filters != [] {
      var n := |filters| - 1;
      var before, own := Bindings(filters[..n]), BindingsOf(filters[n], n);
      BindingsAreDistinct(filters[..n]);
      OwnNames(filters[n], n);
      forall i, j | 0 <= i < |before| && 0 <= j < |own| ensures before[i].name != own[j].name {
        BindingsBelong(filters[..n], before[i]);
        var k: nat :| k < n && NameOfFilter(before[i].name, k);
        if before[i].name == own[j].name { NamesOfDifferentFilters(own[j].name, n, k); }
      }
      JoinedNoRepeats(before, own);
    }
  }

  lemma JoinedNoRepeats(a: seq<Binding>, b: seq<Binding>)
    requires NoRepeats(Names(a)) && NoRepeats(Names(b))
    requires forall i, j :: 0 <= i < |a| && 0 <= j < |b| ==> a[i].name != b[j].name
    ensures NoRepeats(Names(a + b))
  {
    NamesAppend(a, b);
  }

  /** The placeholders of a whole clause are pairwise different. */
  lemma PlaceholdersAreDistinct(filters: seq<Filter>)
    ensures NoRepeats(Placeholders(ConditionsFor(filters)))
  {
    PlaceholdersAreBindings(filters);
    BindingsAreDistinct(filters);
  }

  ghost predicate Holds(params: Params, bindings: seq<Binding>, adapt: Value -> Value) {
    forall b :: b in bindings ==> b.name in params && params[b.name] == adapt(b.value)
  }

  lemma LastNameIsNew(bindings: seq<Binding>)
    requires bindings != [] && NoRepeats(Names(bindings))
    ensures NoRepeats(Names(bindings[..|bindings| - 1]))
    ensures forall b :: b in bindings[..|bindings| - 1] ==> b.name != bindings[|bindings| - 1].name
  {
    var n := |bindings| - 1;
    assert Names(bindings)[..n] == Names(bindings[..n]);
    forall b | b in bindings[..n] ensures b.name != bindings[n].name {
      var k :| 0 <= k < n && bindings[..n][k] == b;
      assert Names(bindings)[k] != Names(bindings)[n];
    }
  }

  lemma {:induction false} BindAllAt(params: Params, bindings: seq<Binding>, adapt: Value -> Value)
    requires NoRepeats(Names(bindings))
    ensures Holds(BindAll(params, bindings, adapt), bindings, adapt)
    ensures forall k :: k in BindAll(params, bindings, adapt) <==> k in params || k in Names(bindings)
    ensures forall k :: k in params && k !in Names(bindings) ==> BindAll(params, bindings, adapt)[k] == params[k]
  {
    if bindings != [] {
      var n := |bindings| - 1;
      var before := bindings[..n];
      assert bindings == before + [bindings[n]];
      LastNameIsNew(bindings);
      BindAllAt(params, before, adapt);
      assert Names(bindings) == Names(before) + [bindings[n].name];
    }
  }

  /** The dictionary a clause is built into: each of its parameters holds the adapted value it
      stands for, and every other entry, in particular every `u{i}` of a SET clause, is
      untouched. */
  lemma DictionaryIsExact(params: Params, filters: seq<Filter>, adapt: Value -> Value)
    ensures Holds(Bound(params, filters, adapt), Bindings(filters), adapt)
    ensures Bound(params, filters, adapt).Keys == params.Keys + (set name | name in Placeholders(ConditionsFor(filters)))
    ensures forall i: nat :: SetName(i) in params ==>
              SetName(i) in Bound(params, filters, adapt)
              && Bound(params, filters, adapt)[SetName(i)] == params[SetName(i)]
  {
    var bindings := Bindings(filters);
    BindingsAreDistinct(filters);
    BindAllAt(params, bindings, adapt);
    PlaceholdersAreBindings(filters);
    forall i: nat | SetName(i) in params ensures SetName(i) !in Names(bindings) {
      SetNameIsFree(filters, i);
    }
  }

  lemma SetNameIsFree(filters: seq<Filter>, i: nat)
    ensures SetName(i) !in Names(Bindings(filters))
  {
    if SetName(i) in Names(Bindings(filters)) {
      var k :| 0 <= k < |Bindings(filters)| && Names(Bindings(filters))[k] == SetName(i);
      BindingsBelong(filters, Bindings(filters)[k]);
      var l: nat :| l < |filters| && NameOfFilter(SetName(i), l);
      NamesNeverCollide(i, 0, l, 0);
      if exists j: nat :: SetName(i) == ElementName(l, j) {
        var j: nat :| SetName(i) == ElementName(l, j);
        NamesNeverCollide(i, 0, l, j);
      }
    }
  }

  // ------------------------------------------------------------------
  // What a clause means
  // ------------------------------------------------------------------

  datatype Truth = True | False | Unknown

  datatype Dialect = Postgres | Sqlite

  type Row = map<string, Value>

  /** Whether an operator holds of two values that are not null. */
  type Relation = (Op, Value, Value) -> bool

  function Cell(row: Row, column: string): Value {
    if column in row then row[column] else Null
  }

  function And(a: Truth, b: Truth): Truth {
    if a.False? || b.False? then False else if a.Unknown? || b.Unknown? then Unknown else True
  }

  function Or(a: Truth, b: Truth): Truth {
    if a.True? || b.True? then True else if a.Unknown? || b.Unknown? then Unknown else False
  }

  function Compared(rel: Relation, op: Op, a: Value, b: Value): Truth {
    if a.Null? || b.Null? then Unknown else if rel(op, a, b) then True else False
  }

  /** Equality that treats null as a value, which is what SQLite's IS does. */
  function NullSafe(rel: Relation, a: Value, b: Value): Truth {
    if a.Null? || b.Null? then (if a == b then True else False) else if rel(Eq, a, b) then True else False
  }

  /** cell = :name_0 OR cell = :name_1 OR ... */
  function AnyEqual(rel: Relation, cell: Value, names: seq<string>, params: Params): Truth
    requires forall name :: name in names ==> name in params
  {
    if names == [] then False
    else
      var n := |names| - 1;
      Or(AnyEqual(rel, cell, names[..n], params), Compared(rel, Eq, cell, params[names[n]]))
  }

  /** Whether the database accepts the condition: PostgreSQL has no `IN ()` and no `IS :p`,
      SQLite has no ILIKE. */
  predicate Accepted(dialect: Dialect, c: Condition) {
    match dialect
    case Postgres => !c.IsParam? && !(c.Membership? && c.names == [])
    case Sqlite => !(c.Comparison? && c.op.ILike?)
  }

  function Evaluate(rel: Relation, c: Condition, params: Params, row: Row): Truth
    requires forall name :: name in NamesOf(c) ==> name in params
  {
    match c
    case Comparison(column, op, name) =>
      assert name in NamesOf(c);
      Compared(rel, op, Cell(row, column), params[name])
    case IsNull(column) => if Cell(row, column).Null? then True else False
    case IsParam(column, name) =>
      assert name in NamesOf(c);
      NullSafe(rel, Cell(row, column), params[name])
    case Membership(column, names) => AnyEqual(rel, Cell(row, column), names, params)
  }

  ghost predicate AllBound(conditions: seq<Condition>, params: Params) {
    forall i, name :: 0 <= i < |conditions| && name in NamesOf(conditions[i]) ==> name in params
  }

  /** cond_0 AND cond_1 AND ..., which is true when there are none. */
  ghost function EvaluateAll(rel: Relation, conditions: seq<Condition>, params: Params, row: Row): Truth
    requires AllBound(conditions, params)
  {
    if conditions == [] then True
    else
      var n := |conditions| - 1;
      assert forall i :: 0 <= i < n ==> conditions[..n][i] == conditions[i];
      And(EvaluateAll(rel, conditions[..n], params, row), Evaluate(rel, conditions[n], params, row))
  }

  /** What a filter asks of a row, without any clause or parameter. */
  ghost function Meaning(rel: Relation, f: Filter, adapt: Value -> Value, row: Row): Truth {
    var cell := Cell(row, f.column);
    match f
    case Compare(_, op, value) =>
      if cell.Null? || adapt(value).Null? then Unknown else if rel(op, cell, adapt(value)) then True else False
    case Is(_, value) =>
      if value.Null? then (if cell.Null? then True else False)
      else if cell.Null? && adapt(value).Null? then True
      else if !cell.Null? && !adapt(value).Null? && rel(Eq, cell, adapt(value)) then True
      else False
    case In(_, values) =>
      if !cell.Null? && exists v :: v in values && !adapt(v).Null? && rel(Eq, cell, adapt(v)) then True
      else if values != [] && (cell.Null? || exists v :: v in values && adapt(v).Null?) then Unknown
      else False
  }

  /** The conjunction of the filters: false as soon as one is false, else unknown as soon as
      one is unknown. */
  ghost function Conjunction(rel: Relation, filters: seq<Filter>, adapt: Value -> Value, row: Row): Truth {
    if exists i :: 0 <= i < |filters| && Meaning(rel, filters[i], adapt, row).False? then False
    else if exists i :: 0 <= i < |filters| && Meaning(rel, filters[i], adapt, row).Unknown? then Unknown
    else True
  }

  ghost predicate SomeCompares(rel: Relation, cell: Value, bindings: seq<Binding>, adapt: Value -> Value, t: Truth) {
    exists k :: 0 <= k < |bindings| && Compared(rel, Eq, cell, adapt(bindings[k].value)) == t
  }

  lemma SomeComparesSplit(rel: Relation, cell: Value, bindings: seq<Binding>, adapt: Value -> Value, t: Truth)
    requires bindings != []
    ensures SomeCompares(rel, cell, bindings, adapt, t)
       <==> SomeCompares(rel, cell, bindings[..|bindings| - 1], adapt, t)
            || Compared(rel, Eq, cell, adapt(bindings[|bindings| - 1].value)) == t
  {
    var before := bindings[..|bindings| - 1];
    forall k | 0 <= k < |before| ensures bindings[k] == before[k] {
    }
  }

  lemma {:induction false} AnyEqualMeaning(rel: Relation, cell: Value, bindings: seq<Binding>, params: Params,
                                           adapt: Value -> Value)
    requires Holds(params, bindings, adapt)
    ensures forall name :: name in Names(bindings) ==> name in params
    ensures AnyEqual(rel, cell, Names(bindings), params)
         == (if SomeCompares(rel, cell, bindings, adapt, True) then True
             else if SomeCompares(rel, cell, bindings, adapt, Unknown) then Unknown
             else False)
  {
    if bindings != [] {
      var n := |bindings| - 1;
      assert bindings == bindings[..n] + [bindings[n]];
      assert Names(bindings)[..n] == Names(bindings[..n]);
      assert Names(bindings)[n] == bindings[n].name;
      AnyEqualMeaning(rel, cell, bindings[..n], params, adapt);
      SomeComparesSplit(rel, cell, bindings, adapt, True);
      SomeComparesSplit(rel, cell, bindings, adapt, Unknown);
    }
  }

  lemma MembershipMeaning(rel: Relation, column: string, values: seq<Value>, i: nat, params: Params,
                          adapt: Value -> Value, row: Row)
    requires Holds(params, ElementBindings(i, values), adapt)
    ensures forall name :: name in ElementNames(i, |values|) ==> name in params
    ensures AnyEqual(rel, Cell(row, column), ElementNames(i, |values|), params)
         == Meaning(rel, In(column, values), adapt, row)
  {
    var bindings := ElementBindings(i, values);
    var cell := Cell(row, column);
    assert ElementNames(i, |values|) == Names(bindings);
    AnyEqualMeaning(rel, cell, bindings, params, adapt);
    forall v, t | v in values && Compared(rel, Eq, cell, adapt(v)) == t
      ensures SomeCompares(rel, cell, bindings, adapt, t)
    {
      var j :| 0 <= j < |values| && values[j] == v;
      assert bindings[j].value == v;
    }
    if cell.Null? && values != [] { assert Compared(rel, Eq, cell, adapt(values[0])).Unknown?; }
  }

  lemma EvaluateMeaning(rel: Relation, f: Filter, i: nat, params: Params, adapt: Value -> Value, row: Row)
    requires Holds(params, BindingsOf(f, i), adapt)
    ensures forall name :: name in NamesOf(ConditionFor(f, i)) ==> name in params
    ensures Evaluate(rel, ConditionFor(f, i), params, row) == Meaning(rel, f, adapt, row)
  {
    match f {
      case Compare(_, _, value) => assert Binding(FilterName(i), value) in BindingsOf(f, i);
      case Is(_, value) => if !value.Null? { assert Binding(FilterName(i), value) in BindingsOf(f, i); }
      case In(column, values) => MembershipMeaning(rel, column, values, i, params, adapt, row);
    }
  }

  lemma {:induction false} OwnBindingsIn(filters: seq<Filter>, i: nat, b: Binding)
    requires i < |filters| && b in BindingsOf(filters[i], i)
    ensures b in Bindings(filters)
  {
    var n := |filters| - 1;
    if i < n { OwnBindingsIn(filters[..n], i, b); }
  }

  lemma OwnBindingsHold(params: Params, filters: seq<Filter>, adapt: Value -> Value, i: nat)
    requires i < |filters| && Holds(params, Bindings(filters), adapt)
    ensures Holds(params, BindingsOf(filters[i], i), adapt)
  {
    forall b | b in BindingsOf(filters[i], i) ensures b in Bindings(filters) { OwnBindingsIn(filters, i, b); }
  }

  lemma {:induction false} ClauseIsConjunction(rel: Relation, filters: seq<Filter>, params: Params,
                                               adapt: Value -> Value, row: Row)
    requires Holds(params, Bindings(filters), adapt)
    ensures AllBound(ConditionsFor(filters), params)
    ensures EvaluateAll(rel, ConditionsFor(filters), params, row) == Conjunction(rel, filters, adapt, row)
  {
    var conditions := ConditionsFor(filters);
    forall i, name | 0 <= i < |conditions| && name in NamesOf(conditions[i]) ensures name in params {
      OwnBindingsHold(params, filters, adapt, i);
      EvaluateMeaning(rel, filters[i], i, params, adapt, row);
    }
    if filters != [] {
      var n := |filters| - 1;
      assert conditions[..n] == ConditionsFor(filters[..n]);
      ClauseIsConjunction(rel, filters[..n], params, adapt, row);
      OwnBindingsHold(params, filters, adapt, n);
      EvaluateMeaning(rel, filters[n], n, params, adapt, row);
      ConjunctionGrows(rel, filters, adapt, row);
    }
  }

  lemma ConjunctionGrows(rel: Relation, filters: seq<Filter>, adapt: Value -> Value, row: Row)
    requires filters != []
    ensures Conjunction(rel, filters, adapt, row)
         == And(Conjunction(rel, filters[..|filters| - 1], adapt, row),
                Meaning(rel, filters[|filters| - 1], adapt, row))
  {
    var n := |filters| - 1;
    assert forall i :: 0 <= i < n ==> filters[..n][i] == filters[i];
  }

  /** Filter compilation preserves meaning, on every row and for every list of filters, even
      when the clause shares its dictionary with other entries. */
  lemma WhereClauseMeaning(rel: Relation, filters: seq<Filter>, shared: Params, adapt: Value -> Value, row: Row)
    ensures AllBound(ConditionsFor(filters), Bound(shared, filters, adapt))
    ensures EvaluateAll(rel, ConditionsFor(filters), Bound(shared, filters, adapt), row)
         == Conjunction(rel, filters, adapt, row)
  {
    DictionaryIsExact(shared, filters, adapt);
    ClauseIsConjunction(rel, filters, Bound(shared, filters, adapt), adapt, row);
  }

  /** Which lists of filters the database accepts, told from the filters alone: PostgreSQL
      exactly those without an empty IN list and without an IS against anything but null,
      SQLite exactly those without ilike. */
  lemma AcceptedClauses(dialect: Dialect, filters: seq<Filter>)
    ensures (forall i :: 0 <= i < |filters| ==> Accepted(dialect, ConditionsFor(filters)[i]))
       <==> (if dialect.Sqlite?
             then forall f :: f in filters ==> !(f.Compare? && f.op.ILike?)
             else forall f :: f in filters ==> !(f.In? && f.values == []) && !(f.Is? && f.value != Null))
  {
    forall i | 0 <= i < |filters|
      ensures Accepted(dialect, ConditionsFor(filters)[i]) <==>
              (if dialect.Sqlite?
               then !(filters[i].Compare? && filters[i].op.ILike?)
               else !(filters[i].In? && filters[i].values == []) && !(filters[i].Is? && filters[i].value != Null))
    {
      assert ConditionsFor(filters)[i] == ConditionFor(filters[i], i);
    }
  }

  // ------------------------------------------------------------------
  // UPDATE
  // ------------------------------------------------------------------

  /** The parameters of the SET clause. */
  function SetBindings(values: seq<Value>): (bindings: seq<Binding>)
    ensures |bindings| == |values|
    ensures forall i :: 0 <= i < |values| ==> bindings[i] == Binding(SetName(i), values[i])
  {
    seq(|values|, i requires 0 <= i < |values| => Binding(SetName(i), values[i]))
  }

  lemma SetNamesDistinct(values: seq<Value>)
    ensures NoRepeats(Names(SetBindings(values)))
  {
    forall i, j | 0 <= i < j < |values| ensures SetName(i) != SetName(j) {
      NamesNeverCollide(i, 0, j, 0);
    }
  }

  /** SET column_0 = :u0, column_1 = :u1, ... */
  function Assign(row: Row, columns: seq<string>, names: seq<string>, params: Params): Row
    requires |columns| == |names| && forall name :: name in names ==> name in params
  {
    if columns == [] then row
    else
      var n := |columns| - 1;
      Assign(row, columns[..n], names[..n], params)[columns[n] := params[names[n]]]
  }

  /** The columns set directly to their adapted values. */
  function AssignValues(row: Row, columns: seq<string>, values: seq<Value>, adapt: Value -> Value): Row
    requires |columns| == |values|
  {
    if columns == [] then row
    else
      var n := |columns| - 1;
      AssignValues(row, columns[..n], values[..n], adapt)[columns[n] := adapt(values[n])]
  }

  lemma NamesHold(params: Params, bindings: seq<Binding>, adapt: Value -> Value)
    requires Holds(params, bindings, adapt)
    ensures forall name :: name in Names(bindings) ==> name in params
    ensures forall k :: 0 <= k < |bindings| ==> params[Names(bindings)[k]] == adapt(bindings[k].value)
  {
    forall k | 0 <= k < |bindings|
      ensures Names(bindings)[k] in params && params[Names(bindings)[k]] == adapt(bindings[k].value)
    {
      assert bindings[k] in bindings;
    }
  }

  lemma SetBindingsButLast(values: seq<Value>)
    requires values != []
    ensures SetBindings(values[..|values| - 1]) == SetBindings(values)[..|values| - 1]
    ensures Names(SetBindings(values[..|values| - 1])) == Names(SetBindings(values))[..|values| - 1]
  {
  }

  lemma {:induction false} AssignMeaning(row: Row, columns: seq<string>, values: seq<Value>, params: Params,
                                         adapt: Value -> Value)
    requires |columns| == |values| && Holds(params, SetBindings(values), adapt)
    ensures forall name :: name in Names(SetBindings(values)) ==> name in params
    ensures Assign(row, columns, Names(SetBindings(values)), params) == AssignValues(row, columns, values, adapt)
  {
    NamesHold(params, SetBindings(values), adapt);
    if columns != [] {
      var n := |columns| - 1;
      SetBindingsButLast(values);
      AssignMeaning(row, columns[..n], values[..n], params, adapt);
    }
  }

  /** The parameters of an UPDATE: the SET values first, then the WHERE clause's. */
  function UpdateParams(values: seq<Value>, filters: seq<Filter>, adapt: Value -> Value): Params {
    Bound(BindAll(map[], SetBindings(values), adapt), filters, adapt)
  }

  lemma SetHolds(values: seq<Value>, filters: seq<Filter>, adapt: Value -> Value)
    ensures Holds(UpdateParams(values, filters, adapt), SetBindings(values), adapt)
  {
    var bindings := SetBindings(values);
    var base := BindAll(map[], bindings, adapt);
    SetNamesDistinct(values);
    BindAllAt(map[], bindings, adapt);
    DictionaryIsExact(base, filters, adapt);
    forall b | b in bindings
      ensures b.name in UpdateParams(values, filters, adapt)
              && UpdateParams(values, filters, adapt)[b.name] == adapt(b.value)
    {
      var k :| 0 <= k < |bindings| && bindings[k] == b;
      assert b.name == SetName(k);
    }
  }

  /** One row under the statement _execute_update builds. */
  ghost function UpdatedRow(rel: Relation, columns: seq<string>, values: seq<Value>, filters: seq<Filter>,
                            adapt: Value -> Value, row: Row): Row
    requires |columns| == |values|
  {
    SetHolds(values, filters, adapt);
    AssignMeaning(row, columns, values, UpdateParams(values, filters, adapt), adapt);
    WhereClauseMeaning(rel, filters, BindAll(map[], SetBindings(values), adapt), adapt, row);
    var params := UpdateParams(values, filters, adapt);
    if EvaluateAll(rel, ConditionsFor(filters), params, row).True?
    then Assign(row, columns, Names(SetBindings(values)), params)
    else row
  }

  /** Setting different columns gives each its own value and no other column a new one. */
  lemma {:induction false} AssignValuesAt(row: Row, columns: seq<string>, values: seq<Value>, adapt: Value -> Value, c: string)
    requires |columns| == |values| && NoRepeats(columns)
    ensures c !in columns ==> Cell(AssignValues(row, columns, values, adapt), c) == Cell(row, c)
    ensures forall i :: 0 <= i < |columns| && columns[i] == c ==>
              Cell(AssignValues(row, columns, values, adapt), c) == adapt(values[i])
  {
    if columns != [] {
      var n := |columns| - 1;
      AssignValuesAt(row, columns[..n], values[..n], adapt, c);
      assert columns == columns[..n] + [columns[n]];
      assert forall i :: 0 <= i < n ==> columns[..n][i] == columns[i] && values[..n][i] == values[i];
    }
  }

  lemma AssignedColumns(row: Row, columns: seq<string>, values: seq<Value>, adapt: Value -> Value)
    requires |columns| == |values| && NoRepeats(columns)
    ensures SetExactly(row, columns, values, adapt, AssignValues(row, columns, values, adapt))
  {
    forall c ensures c !in columns ==> Cell(AssignValues(row, columns, values, adapt), c) == Cell(row, c) {
      AssignValuesAt(row, columns, values, adapt, c);
    }
    forall i | 0 <= i < |columns| ensures Cell(AssignValues(row, columns, values, adapt), columns[i]) == adapt(values[i]) {
      AssignValuesAt(row, columns, values, adapt, columns[i]);
    }
  }

  /** Each named column has its adapted new value, and every other column its old one. */
  ghost predicate SetExactly(row: Row, columns: seq<string>, values: seq<Value>, adapt: Value -> Value, after: Row)
    requires |columns| == |values|
  {
    && (forall i :: 0 <= i < |columns| ==> Cell(after, columns[i]) == adapt(values[i]))
    && (forall c :: c !in columns ==> Cell(after, c) == Cell(row, c))
  }

  lemma UpdatedRowIs(rel: Relation, columns: seq<string>, values: seq<Value>, filters: seq<Filter>,
                     adapt: Value -> Value, row: Row)
    requires |columns| == |values|
    ensures UpdatedRow(rel, columns, values, filters, adapt, row)
         == if Conjunction(rel, filters, adapt, row).True? then AssignValues(row, columns, values, adapt) else row
  {
    SetHolds(values, filters, adapt);
    AssignMeaning(row, columns, values, UpdateParams(values, filters, adapt), adapt);
    WhereClauseMeaning(rel, filters, BindAll(map[], SetBindings(values), adapt), adapt, row);
  }

  /** _execute_update changes exactly the rows of which every filter is true, and gives their
      named columns, which are all different, exactly the adapted new values. */
  lemma UpdateMeaning(rel: Relation, columns: seq<string>, values: seq<Value>, filters: seq<Filter>,
                      adapt: Value -> Value, row: Row)
    requires |columns| == |values|
    ensures UpdatedRow(rel, columns, values, filters, adapt, row)
         == if forall i :: 0 <= i < |filters| ==> Meaning(rel, filters[i], adapt, row).True?
            then AssignValues(row, columns, values, adapt)
            else row
    ensures NoRepeats(columns) && (forall i :: 0 <= i < |filters| ==> Meaning(rel, filters[i], adapt, row).True?) ==>
              SetExactly(row, columns, values, adapt, UpdatedRow(rel, columns, values, filters, adapt, row))
  {
    UpdatedRowIs(rel, columns, values, filters, adapt, row);
    if NoRepeats(columns) { AssignedColumns(row, columns, values, adapt); }
  }
}

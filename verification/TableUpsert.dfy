/** The upsert of the query builder (db/db_client.py, _execute_upsert): row by row
    INSERT ... ON CONFLICT, over a table with a unique key, committed as a whole. */
module TableUpsert {
  import opened Text
  import opened QueryBuilder

  datatype Error = NoData | NoConflictColumn | StatementRejected | MissingColumn(index: nat)

  datatype Outcome = Done(returned: seq<Row>) | Failed(error: Error)

  /** The columns of ON CONFLICT and those of its DO UPDATE SET. */
  datatype Plan = Plan(key: set<string>, update: set<string>)

  /** A row's key: a key with a null in it is none, it never conflicts. */
  function KeyOf(key: set<string>, row: Row): Option<Row> {
    if exists c :: c in key && Cell(row, c).Null? then None
    else Some(map c | c in key :: Cell(row, c))
  }

  predicate HasKey(key: set<string>, row: Row) {
    KeyOf(key, row).Some?
  }

  predicate SameKey(key: set<string>, a: Row, b: Row) {
    HasKey(key, a) && KeyOf(key, a) == KeyOf(key, b)
  }

  lemma SameCellsSameKey(key: set<string>, a: Row, b: Row)
    requires forall c :: c in key ==> Cell(a, c) == Cell(b, c)
    ensures KeyOf(key, a) == KeyOf(key, b)
  {
    if KeyOf(key, a).Some? {
      assert KeyOf(key, a).value == KeyOf(key, b).value;
    }
  }

  /** The unique index: no two rows share a key. */
  predicate Unique(key: set<string>, table: seq<Row>) {
    forall i, j :: 0 <= i < j < |table| ==> !SameKey(key, table[i], table[j])
  }

  ghost predicate HaveColumns(table: seq<Row>, schema: set<string>) {
    forall j :: 0 <= j < |table| ==> table[j].Keys == schema
  }

  /** SET c = EXCLUDED.c for the columns of the plan. */
  function Overwrite(row: Row, p: Row, update: set<string>): Row {
    map c | c in row.Keys + update :: if c in update then Cell(p, c) else row[c]
  }

  /** The row the proposed one conflicts with. */
  function Conflict(key: set<string>, table: seq<Row>, p: Row): (r: Option<nat>)
    ensures r.Some? ==> r.value < |table| && SameKey(key, table[r.value], p)
    ensures r.None? ==> forall i :: 0 <= i < |table| ==> !SameKey(key, table[i], p)
  {
    if table == [] then None
    else if SameKey(key, table[|table| - 1], p) then Some(|table| - 1)
    else Conflict(key, table[..|table| - 1], p)
  }

  function Step(plan: Plan, table: seq<Row>, p: Row): seq<Row> {
    match Conflict(plan.key, table, p)
    case None => table + [p]
    case Some(i) => table[i := Overwrite(table[i], p, plan.update)]
  }

  /** RETURNING *: nothing when the conflict is answered with DO NOTHING. */
  function Returned(plan: Plan, table: seq<Row>, p: Row): seq<Row> {
    match Conflict(plan.key, table, p)
    case None => [p]
    case Some(i) => if plan.update == {} then [] else [Overwrite(table[i], p, plan.update)]
  }

  function Run(plan: Plan, table: seq<Row>, proposals: seq<Row>): seq<Row> {
    if proposals == [] then table
    else Step(plan, Run(plan, table, proposals[..|proposals| - 1]), proposals[|proposals| - 1])
  }

  function AllReturned(plan: Plan, table: seq<Row>, proposals: seq<Row>): seq<Row> {
    if proposals == [] then []
    else
      var before := proposals[..|proposals| - 1];
      AllReturned(plan, table, before) + Returned(plan, Run(plan, table, before), proposals[|proposals| - 1])
  }

  // ------------------------------------------------------------------
  // From the caller's data to proposed rows
  // ------------------------------------------------------------------

  /** The names in `on_conflict`, "id" if it is empty. */
  function ConflictColumns(onConflict: string): set<string> {
    set f | f in Split(if onConflict == "" then "id" else onConflict, ',') && Strip(f) != "" :: Strip(f)
  }

  function PlanFor(columns: set<string>, key: set<string>): Plan {
    Plan(key, columns - key - {"created_at"})
  }

  /** The row INSERT proposes: adapted values for the named columns, defaults elsewhere. */
  function Proposed(schema: set<string>, columns: set<string>, data: Row, adapt: Value -> Value, defaults: Row): Row
    requires columns <= data.Keys
  {
    map c | c in schema :: if c in columns then adapt(data[c]) else Cell(defaults, c)
  }

  /** Every row has a value for each of the columns. */
  predicate Covers(columns: set<string>, data: seq<Row>) {
    forall i :: 0 <= i < |data| ==> columns <= data[i].Keys
  }

  /** `defaults` gives the default values in force when the i-th row is inserted. */
  function Proposals(schema: set<string>, columns: set<string>, data: seq<Row>, adapt: Value -> Value,
                     defaults: nat -> Row): (ps: seq<Row>)
    requires Covers(columns, data)
    ensures |ps| == |data|
  {
    seq(|data|, i requires 0 <= i < |data| => Proposed(schema, columns, data[i], adapt, defaults(i)))
  }

  /** The loop over the rows: stops at the first one a column is missing from. */
  method UpsertRows(plan: Plan, schema: set<string>, columns: set<string>, data: seq<Row>, adapt: Value -> Value,
                    defaults: nat -> Row, table: seq<Row>)
      returns (missing: Option<nat>, current: seq<Row>, returned: seq<Row>)
    ensures missing.Some? ==> missing.value < |data| && !(columns <= data[missing.value].Keys)
                              && Covers(columns, data[..missing.value])
    ensures missing.None? ==>
              && Covers(columns, data)
              && current == Run(plan, table, Proposals(schema, columns, data, adapt, defaults))
              && returned == AllReturned(plan, table, Proposals(schema, columns, data, adapt, defaults))
  {
    missing, current, returned := None, table, [];
    var i := 0;
    while i < |data|
      invariant 0 <= i <= |data| && missing.None? && Covers(columns, data[..i])
      invariant current == Run(plan, table, Proposals(schema, columns, data[..i], adapt, defaults))
      invariant returned == AllReturned(plan, table, Proposals(schema, columns, data[..i], adapt, defaults))
    {
      if !(columns <= data[i].Keys) { return Some(i), current, returned; }
      var p := Proposed(schema, columns, data[i], adapt, defaults(i));
      ProposalsGrow(schema, columns, data, i, adapt, defaults);
      returned := returned + Returned(plan, current, p);
      current := Step(plan, current, p);
      i := i + 1;
    }
    assert data[..i] == data;
  }

  /** A table of the database, with its unique key. */
  class Table {
    const schema: set<string>
    const uniqueKey: set<string>
    var rows: seq<Row>

    ghost predicate Valid()
      reads this
    {
      && Unique(uniqueKey, rows)
      && HaveColumns(rows, schema)
    }

    constructor (schema: set<string>, uniqueKey: set<string>)
      ensures Valid() && rows == [] && this.schema == schema && this.uniqueKey == uniqueKey
    {
      this.schema, this.uniqueKey, rows := schema, uniqueKey, [];
    }

    /** _execute_upsert, on a list of rows. Nothing is kept unless every row went through. */
    method ExecuteUpsert(data: seq<Row>, onConflict: string, adapt: Value -> Value, defaults: nat -> Row)
        returns (outcome: Outcome)
      requires Valid()
      modifies this
      ensures Valid()
      ensures outcome.Failed? ==> rows == old(rows)
      ensures outcome.Failed? <==>
              data == [] || ConflictColumns(onConflict) == {} || data[0].Keys == {} || !(data[0].Keys <= schema)
              || ConflictColumns(onConflict) != uniqueKey || !Covers(data[0].Keys, data)
      ensures outcome == Failed(NoData) <==> data == []
      ensures outcome == Failed(NoConflictColumn) <==> data != [] && ConflictColumns(onConflict) == {}
      ensures outcome == Failed(StatementRejected) <==>
              data != [] && ConflictColumns(onConflict) != {}
              && (data[0].Keys == {} || !(data[0].Keys <= schema) || ConflictColumns(onConflict) != uniqueKey)
      ensures outcome.Failed? && outcome.error.MissingColumn? ==>
                var i := outcome.error.index;
                i < |data| && !(data[0].Keys <= data[i].Keys) && Covers(data[0].Keys, data[..i])
      ensures outcome.Done? ==>
                && rows == Run(PlanFor(data[0].Keys, uniqueKey), old(rows),
                               Proposals(schema, data[0].Keys, data, adapt, defaults))
                && outcome.returned == AllReturned(PlanFor(data[0].Keys, uniqueKey), old(rows),
                                                   Proposals(schema, data[0].Keys, data, adapt, defaults))
      ensures outcome.Done? ==> UpsertedTo(Upsert(schema, uniqueKey, data[0].Keys, data, adapt, defaults), old(rows), rows)
    {
      if data == [] { return Failed(NoData); }
      var columns := data[0].Keys;
      var key := ConflictColumns(onConflict);
      if key == {} { return Failed(NoConflictColumn); }
      if columns == {} || !(columns <= schema) || key != uniqueKey { return Failed(StatementRejected); }
      var plan := PlanFor(columns, key);
      var missing, current, returned := UpsertRows(plan, schema, columns, data, adapt, defaults, rows);
      if missing.Some? { return Failed(MissingColumn(missing.value)); }
      ProposalsFit(schema, columns, data, adapt, defaults);
      RunKeepsSchema(plan, rows, Proposals(schema, columns, data, adapt, defaults), schema);
      RunKeepsUnique(plan, rows, Proposals(schema, columns, data, adapt, defaults));
      UpsertMeaning(Upsert(schema, key, columns, data, adapt, defaults), rows);
      rows := current;
      return Done(returned);
    }
  }

  lemma ProposalsFit(schema: set<string>, columns: set<string>, data: seq<Row>, adapt: Value -> Value, defaults: nat -> Row)
    requires Covers(columns, data)
    ensures HaveColumns(Proposals(schema, columns, data, adapt, defaults), schema)
  {
    var ps := Proposals(schema, columns, data, adapt, defaults);
    forall j | 0 <= j < |ps| ensures ps[j].Keys == schema {
      assert ps[j] == Proposed(schema, columns, data[j], adapt, defaults(j));
    }
  }

  lemma ProposalsGrow(schema: set<string>, columns: set<string>, data: seq<Row>, i: nat, adapt: Value -> Value,
                      defaults: nat -> Row)
    requires i < |data| && Covers(columns, data[..i]) && columns <= data[i].Keys
    ensures Covers(columns, data[..i + 1])
    ensures Proposals(schema, columns, data[..i + 1], adapt, defaults)
         == Proposals(schema, columns, data[..i], adapt, defaults) + [Proposed(schema, columns, data[i], adapt, defaults(i))]
  {
    assert data[..i + 1] == data[..i] + [data[i]];
    assert forall k :: 0 <= k < i ==> data[..i + 1][k] == data[..i][k];
  }

  // ------------------------------------------------------------------
  // What every run keeps
  // ------------------------------------------------------------------

  ghost predicate WellFormed(plan: Plan) {
    plan.key !! plan.update
  }

  lemma OverwriteKeepsKey(plan: Plan, row: Row, p: Row)
    requires WellFormed(plan)
    ensures KeyOf(plan.key, Overwrite(row, p, plan.update)) == KeyOf(plan.key, row)
  {
    SameCellsSameKey(plan.key, Overwrite(row, p, plan.update), row);
  }

  lemma StepKeepsUnique(plan: Plan, table: seq<Row>, p: Row)
    requires WellFormed(plan) && Unique(plan.key, table)
    ensures Unique(plan.key, Step(plan, table, p))
  {
    var conflict := Conflict(plan.key, table, p);
    if conflict.Some? { OverwriteKeepsKey(plan, table[conflict.value], p); }
  }

  lemma {:induction false} RunKeepsUnique(plan: Plan, table: seq<Row>, proposals: seq<Row>)
    requires WellFormed(plan) && Unique(plan.key, table)
    ensures Unique(plan.key, Run(plan, table, proposals))
  {
    if proposals != [] {
      var n := |proposals| - 1;
      RunKeepsUnique(plan, table, proposals[..n]);
      StepKeepsUnique(plan, Run(plan, table, proposals[..n]), proposals[n]);
    }
  }

  lemma {:induction false} RunKeepsSchema(plan: Plan, table: seq<Row>, proposals: seq<Row>, schema: set<string>)
    requires plan.update <= schema
    requires HaveColumns(table, schema) && HaveColumns(proposals, schema)
    ensures HaveColumns(Run(plan, table, proposals), schema)
  {
    if proposals != [] {
      RunKeepsSchema(plan, table, proposals[..|proposals| - 1], schema);
    }
  }

  lemma StepPlaces(plan: Plan, table: seq<Row>, p: Row)
    ensures |table| <= |Step(plan, table, p)| <= |table| + 1
    ensures |Step(plan, table, p)| == |table| <==> exists i :: 0 <= i < |table| && SameKey(plan.key, table[i], p)
    ensures |Step(plan, table, p)| == |table| + 1 ==> Step(plan, table, p)[|table|] == p
    ensures forall i :: 0 <= i < |table| ==>
              Step(plan, table, p)[i] == table[i]
              || (SameKey(plan.key, table[i], p) && Step(plan, table, p)[i] == Overwrite(table[i], p, plan.update))
  {
  }

  /** Rows stay where they are, and an existing row's `created_at`, its key and every column
      that was not named keep their values whatever is upserted. */
  lemma {:induction false} ExistingRowsKeep(plan: Plan, table: seq<Row>, proposals: seq<Row>, i: nat)
    requires i < |table|
    ensures |Run(plan, table, proposals)| >= |table|
    ensures forall c :: c !in plan.update ==> Cell(Run(plan, table, proposals)[i], c) == Cell(table[i], c)
  {
    if proposals != [] {
      var n := |proposals| - 1;
      ExistingRowsKeep(plan, table, proposals[..n], i);
      StepPlaces(plan, Run(plan, table, proposals[..n]), proposals[n]);
    }
  }

  lemma ExistingKeyKept(plan: Plan, table: seq<Row>, proposals: seq<Row>, i: nat)
    requires WellFormed(plan) && i < |table|
    ensures |Run(plan, table, proposals)| >= |table|
    ensures KeyOf(plan.key, Run(plan, table, proposals)[i]) == KeyOf(plan.key, table[i])
  {
    ExistingRowsKeep(plan, table, proposals, i);
    SameCellsSameKey(plan.key, Run(plan, table, proposals)[i], table[i]);
  }

  lemma {:induction false} RunGrows(plan: Plan, table: seq<Row>, proposals: seq<Row>, n: nat)
    requires n <= |proposals|
    ensures |table| <= |Run(plan, table, proposals[..n])| <= |Run(plan, table, proposals)|
    decreases |proposals|
  {
    var m := |proposals| - 1;
    if n < |proposals| {
      assert proposals[..m][..n] == proposals[..n];
      RunGrows(plan, table, proposals[..m], n);
      StepPlaces(plan, Run(plan, table, proposals[..m]), proposals[m]);
    } else {
      assert proposals[..n] == proposals;
      if table != [] { ExistingRowsKeep(plan, table, proposals, 0); }
    }
  }

  /** A row that none of the proposed keys is equal to is not touched at all. */
  lemma {:induction false} OthersUntouched(plan: Plan, table: seq<Row>, proposals: seq<Row>, i: nat)
    requires i < |table|
    requires forall k :: 0 <= k < |proposals| ==> !SameKey(plan.key, table[i], proposals[k])
    ensures |Run(plan, table, proposals)| >= |table| && Run(plan, table, proposals)[i] == table[i]
  {
    if proposals != [] {
      var n := |proposals| - 1;
      OthersUntouched(plan, table, proposals[..n], i);
      StepPlaces(plan, Run(plan, table, proposals[..n]), proposals[n]);
    }
  }

  /** The k-th proposed row is the last one with the key of the given row. */
  ghost predicate LastOf(key: set<string>, proposals: seq<Row>, row: Row, k: nat) {
    && k < |proposals| && SameKey(key, row, proposals[k])
    && forall l :: k < l < |proposals| ==> !SameKey(key, row, proposals[l])
  }

  lemma LastOfEarlier(key: set<string>, proposals: seq<Row>, row: Row, k: nat)
    requires LastOf(key, proposals, row, k) && k < |proposals| - 1
    ensures LastOf(key, proposals[..|proposals| - 1], row, k) && !SameKey(key, row, proposals[|proposals| - 1])
  {
  }

  /** Among the proposed rows of one key, the last one decides every column that is updated. */
  lemma {:induction false} LastWins(plan: Plan, table: seq<Row>, proposals: seq<Row>, i: nat, k: nat)
    requires WellFormed(plan) && Unique(plan.key, table)
    requires i < |Run(plan, table, proposals)|
    requires LastOf(plan.key, proposals, Run(plan, table, proposals)[i], k)
    ensures forall c :: c in plan.update ==> Cell(Run(plan, table, proposals)[i], c) == Cell(proposals[k], c)
    decreases |proposals|
  {
    var n := |proposals| - 1;
    var before, p := Run(plan, table, proposals[..n]), proposals[n];
    RunKeepsUnique(plan, table, proposals[..n]);
    if k == n {
      StepDecides(plan, before, p, i);
    } else {
      LastOfEarlier(plan.key, proposals, Run(plan, table, proposals)[i], k);
      StepSpares(plan, before, p, i);
      LastWins(plan, table, proposals[..n], i, k);
    }
  }

  lemma StepDecides(plan: Plan, table: seq<Row>, p: Row, i: nat)
    requires WellFormed(plan) && Unique(plan.key, table) && i < |Step(plan, table, p)|
    requires SameKey(plan.key, Step(plan, table, p)[i], p)
    ensures forall c :: c in plan.update ==> Cell(Step(plan, table, p)[i], c) == Cell(p, c)
  {
    var conflict := Conflict(plan.key, table, p);
    if conflict.Some? {
      var j := conflict.value;
      StepKeepsUnique(plan, table, p);
      OverwriteKeepsKey(plan, table[j], p);
      assert i == j;
    }
  }

  lemma StepSpares(plan: Plan, table: seq<Row>, p: Row, i: nat)
    requires WellFormed(plan) && i < |Step(plan, table, p)| && HasKey(plan.key, Step(plan, table, p)[i])
    requires !SameKey(plan.key, Step(plan, table, p)[i], p)
    ensures i < |table| && Step(plan, table, p)[i] == table[i]
  {
    StepPlaces(plan, table, p);
    if i < |table| { OverwriteKeepsKey(plan, table[i], p); }
  }

  lemma StepStores(plan: Plan, table: seq<Row>, p: Row) returns (i: nat)
    requires WellFormed(plan) && HasKey(plan.key, p)
    ensures i < |Step(plan, table, p)| && SameKey(plan.key, Step(plan, table, p)[i], p)
  {
    var conflict := Conflict(plan.key, table, p);
    i := if conflict.Some? then conflict.value else |table|;
    if conflict.Some? { OverwriteKeepsKey(plan, table[i], p); }
  }

  /** Every proposed row that has a key is found in the table afterwards. */
  lemma {:induction false} EveryKeyIsStored(plan: Plan, table: seq<Row>, proposals: seq<Row>, k: nat) returns (i: nat)
    requires WellFormed(plan) && k < |proposals| && HasKey(plan.key, proposals[k])
    ensures i < |Run(plan, table, proposals)| && SameKey(plan.key, Run(plan, table, proposals)[i], proposals[k])
    decreases |proposals|
  {
    var n := |proposals| - 1;
    if k < n {
      i := EveryKeyIsStored(plan, table, proposals[..n], k);
      StepKeepsKey(plan, Run(plan, table, proposals[..n]), proposals[n], i);
    } else {
      i := StepStores(plan, Run(plan, table, proposals[..n]), proposals[n]);
    }
  }

  lemma StepKeepsKey(plan: Plan, table: seq<Row>, p: Row, i: nat)
    requires WellFormed(plan) && i < |table|
    ensures i < |Step(plan, table, p)| && KeyOf(plan.key, Step(plan, table, p)[i]) == KeyOf(plan.key, table[i])
  {
    StepPlaces(plan, table, p);
    OverwriteKeepsKey(plan, table[i], p);
  }

  lemma {:induction false} ReturnedCount(plan: Plan, table: seq<Row>, proposals: seq<Row>)
    requires plan.update != {}
    ensures |AllReturned(plan, table, proposals)| == |proposals|
  {
    if proposals != [] { ReturnedCount(plan, table, proposals[..|proposals| - 1]); }
  }

  lemma ReturnedIsStored(plan: Plan, table: seq<Row>, p: Row) returns (i: nat)
    requires WellFormed(plan) && plan.update != {}
    ensures |Returned(plan, table, p)| == 1 && i < |Step(plan, table, p)|
    ensures Step(plan, table, p)[i] == Returned(plan, table, p)[0]
    ensures KeyOf(plan.key, Returned(plan, table, p)[0]) == KeyOf(plan.key, p)
  {
    var conflict := Conflict(plan.key, table, p);
    i := if conflict.Some? then conflict.value else |table|;
    if conflict.Some? { OverwriteKeepsKey(plan, table[i], p); }
  }

  lemma {:induction false} ReturnedFor(plan: Plan, table: seq<Row>, proposals: seq<Row>, before: seq<Row>, p: Row)
    requires plan.update != {} && before + [p] <= proposals
    ensures |AllReturned(plan, table, proposals)| == |proposals|
    ensures Returned(plan, Run(plan, table, before), p) == [AllReturned(plan, table, proposals)[|before|]]
    decreases |proposals|
  {
    var n := |proposals| - 1;
    ReturnedCount(plan, table, proposals[..n]);
    ReturnedLast(plan, table, proposals);
    if |before| < n {
      ReturnedFor(plan, table, proposals[..n], before, p);
      EarlierAt(AllReturned(plan, table, proposals), AllReturned(plan, table, proposals[..n]), |before|);
    } else {
      assert proposals[..n] == before && proposals[n] == p;
    }
  }

  lemma ReturnedAt(plan: Plan, table: seq<Row>, proposals: seq<Row>, k: nat)
    requires plan.update != {} && k < |proposals|
    ensures |AllReturned(plan, table, proposals)| == |proposals|
    ensures Returned(plan, Run(plan, table, proposals[..k]), proposals[k]) == [AllReturned(plan, table, proposals)[k]]
  {
    ReturnedFor(plan, table, proposals, proposals[..k], proposals[k]);
  }

  lemma EarlierAt(all: seq<Row>, before: seq<Row>, k: nat)
    requires |before| < |all| && all[..|before|] == before && k < |all|
    ensures k < |before| ==> all[k] == before[k]
  {
  }

  lemma ReturnedLast(plan: Plan, table: seq<Row>, proposals: seq<Row>)
    requires plan.update != {} && proposals != []
    requires |AllReturned(plan, table, proposals[..|proposals| - 1])| == |proposals| - 1
    ensures var n := |proposals| - 1;
            var all := AllReturned(plan, table, proposals);
            && |all| == n + 1 && all[..n] == AllReturned(plan, table, proposals[..n])
            && Returned(plan, Run(plan, table, proposals[..n]), proposals[n]) == [all[n]]
  {
  }

  lemma RunNext(plan: Plan, table: seq<Row>, proposals: seq<Row>, k: nat)
    requires k < |proposals|
    ensures Run(plan, table, proposals[..k + 1]) == Step(plan, Run(plan, table, proposals[..k]), proposals[k])
  {
    assert proposals[..k + 1][..k] == proposals[..k];
  }

  /** What is returned: one row for every proposed row, as the table held it right after that
      row's own statement, unless conflicts are answered with DO NOTHING. */
  lemma ReturnedRowsAreStored(plan: Plan, table: seq<Row>, proposals: seq<Row>, k: nat) returns (i: nat)
    requires WellFormed(plan) && plan.update != {} && k < |proposals|
    ensures |AllReturned(plan, table, proposals)| == |proposals|
    ensures i < |Run(plan, table, proposals[..k + 1])|
    ensures Run(plan, table, proposals[..k + 1])[i] == AllReturned(plan, table, proposals)[k]
    ensures KeyOf(plan.key, AllReturned(plan, table, proposals)[k]) == KeyOf(plan.key, proposals[k])
  {
    ReturnedAt(plan, table, proposals, k);
    RunNext(plan, table, proposals, k);
    i := ReturnedIsStored(plan, Run(plan, table, proposals[..k]), proposals[k]);
  }

  /** A row that was not there before came from a proposed row whose key was new: it keeps that
      row's `created_at`, defaults and key. */
  lemma {:induction false} NewRowsOrigin(plan: Plan, table: seq<Row>, proposals: seq<Row>, i: nat) returns (k: nat)
    requires WellFormed(plan) && |table| <= i < |Run(plan, table, proposals)|
    ensures k < |proposals|
    ensures forall c :: c !in plan.update ==> Cell(Run(plan, table, proposals)[i], c) == Cell(proposals[k], c)
    ensures forall j :: 0 <= j < |table| ==> !SameKey(plan.key, table[j], proposals[k])
    ensures forall l :: 0 <= l < k ==> !SameKey(plan.key, proposals[l], proposals[k])
    ensures HasKey(plan.key, proposals[k]) || Run(plan, table, proposals)[i] == proposals[k]
    decreases |proposals|
  {
    var n := |proposals| - 1;
    var before := Run(plan, table, proposals[..n]);
    assert forall l :: 0 <= l < n ==> proposals[..n][l] == proposals[l];
    if i < |before| {
      k := NewRowsOrigin(plan, table, proposals[..n], i);
      StepKeepsCells(plan, before, proposals[n], i);
      SameCellsSameKey(plan.key, before[i], proposals[k]);
    } else {
      k := n;
      Inserted(plan, before, proposals[n], i);
      NewKey(plan, table, proposals[..n], proposals[n]);
    }
  }

  lemma StepKeepsCells(plan: Plan, table: seq<Row>, p: Row, i: nat)
    requires i < |table|
    ensures |Step(plan, table, p)| >= |table|
    ensures forall c :: c !in plan.update ==> Cell(Step(plan, table, p)[i], c) == Cell(table[i], c)
    ensures HasKey(plan.key, table[i]) || Step(plan, table, p)[i] == table[i]
  {
    StepPlaces(plan, table, p);
  }

  lemma Inserted(plan: Plan, table: seq<Row>, p: Row, i: nat)
    requires |table| <= i < |Step(plan, table, p)|
    ensures Step(plan, table, p)[i] == p && forall j :: 0 <= j < |table| ==> !SameKey(plan.key, table[j], p)
  {
  }

  lemma NewKey(plan: Plan, table: seq<Row>, proposals: seq<Row>, p: Row)
    requires WellFormed(plan)
    requires forall i :: 0 <= i < |Run(plan, table, proposals)| ==> !SameKey(plan.key, Run(plan, table, proposals)[i], p)
    ensures forall j :: 0 <= j < |table| ==> !SameKey(plan.key, table[j], p)
    ensures forall l :: 0 <= l < |proposals| ==> !SameKey(plan.key, proposals[l], p)
  {
    forall j | 0 <= j < |table| ensures !SameKey(plan.key, table[j], p) {
      ExistingKeyKept(plan, table, proposals, j);
    }
    forall l | 0 <= l < |proposals| ensures !SameKey(plan.key, proposals[l], p) {
      if SameKey(plan.key, proposals[l], p) {
        var j := EveryKeyIsStored(plan, table, proposals, l);
      }
    }
  }

  // ------------------------------------------------------------------
  // Running an upsert twice
  // ------------------------------------------------------------------

  /** The same data sent twice: the proposed rows agree on the key and on what is updated, but
      may differ in defaults. */
  ghost predicate SameData(plan: Plan, first: seq<Row>, second: seq<Row>) {
    && |first| == |second|
    && (forall k :: 0 <= k < |first| ==> KeyOf(plan.key, first[k]) == KeyOf(plan.key, second[k]))
    && (forall k, c :: 0 <= k < |first| && c in plan.update ==> Cell(first[k], c) == Cell(second[k], c))
  }

  ghost predicate IsStored(key: set<string>, table: seq<Row>, p: Row) {
    exists i :: 0 <= i < |table| && SameKey(key, table[i], p)
  }

  lemma {:induction false} NothingInserted(plan: Plan, table: seq<Row>, proposals: seq<Row>)
    requires WellFormed(plan)
    requires forall k :: 0 <= k < |proposals| ==> IsStored(plan.key, table, proposals[k])
    ensures |Run(plan, table, proposals)| == |table|
  {
    if proposals != [] {
      var n := |proposals| - 1;
      assert forall k :: 0 <= k < n ==> proposals[..n][k] == proposals[k];
      NothingInserted(plan, table, proposals[..n]);
      assert IsStored(plan.key, table, proposals[n]);
      var i :| 0 <= i < |table| && SameKey(plan.key, table[i], proposals[n]);
      ExistingKeyKept(plan, table, proposals[..n], i);
      StepPlaces(plan, Run(plan, table, proposals[..n]), proposals[n]);
    }
  }

  lemma {:induction false} FindLast(key: set<string>, proposals: seq<Row>, row: Row) returns (k: Option<nat>)
    ensures k.Some? ==> LastOf(key, proposals, row, k.value)
    ensures k.None? ==> forall l :: 0 <= l < |proposals| ==> !SameKey(key, row, proposals[l])
    decreases |proposals|
  {
    if proposals == [] { return None; }
    var n := |proposals| - 1;
    if SameKey(key, row, proposals[n]) { return Some(n); }
    k := FindLast(key, proposals[..n], row);
    assert forall l :: 0 <= l < n ==> proposals[..n][l] == proposals[l];
  }

  lemma SameCells(a: Row, b: Row)
    requires a.Keys == b.Keys && forall c :: c in a ==> Cell(a, c) == Cell(b, c)
    ensures a == b
  {
    assert forall c :: c in a ==> a[c] == Cell(a, c) && b[c] == Cell(b, c);
  }

  ghost predicate AllStored(key: set<string>, table: seq<Row>, proposals: seq<Row>) {
    forall k :: 0 <= k < |proposals| ==> IsStored(key, table, proposals[k])
  }

  predicate SameCellsAt(a: Row, b: Row, columns: set<string>) {
    forall c :: c in columns ==> Cell(a, c) == Cell(b, c)
  }

  /** The last proposed row with the key of this row repeats what it holds. */
  ghost predicate Repeated(plan: Plan, row: Row, proposals: seq<Row>) {
    forall k: nat :: LastOf(plan.key, proposals, row, k) ==> SameCellsAt(proposals[k], row, plan.update)
  }

  /** Every proposed row is found by its key, and the last one of each row repeats what the row
      already holds in the columns that are updated. */
  ghost predicate AlreadyThere(plan: Plan, table: seq<Row>, proposals: seq<Row>) {
    && AllStored(plan.key, table, proposals)
    && (forall i :: 0 <= i < |table| ==> Repeated(plan, table[i], proposals))
  }

  lemma LastOfKey(key: set<string>, proposals: seq<Row>, a: Row, b: Row, k: nat)
    requires KeyOf(key, a) == KeyOf(key, b)
    ensures LastOf(key, proposals, a, k) <==> LastOf(key, proposals, b, k)
  {
  }

  lemma RowAlreadyThere(plan: Plan, table: seq<Row>, proposals: seq<Row>, schema: set<string>, i: nat)
    requires WellFormed(plan) && Unique(plan.key, table) && plan.update <= schema && AlreadyThere(plan, table, proposals)
    requires HaveColumns(table, schema) && HaveColumns(proposals, schema) && i < |table|
    ensures |Run(plan, table, proposals)| >= |table| && Run(plan, table, proposals)[i] == table[i]
  {
    var after := Run(plan, table, proposals);
    ExistingRowsKeep(plan, table, proposals, i);
    var last := FindLast(plan.key, proposals, table[i]);
    if last.None? {
      OthersUntouched(plan, table, proposals, i);
    } else {
      ExistingKeyKept(plan, table, proposals, i);
      LastOfKey(plan.key, proposals, table[i], after[i], last.value);
      LastWins(plan, table, proposals, i, last.value);
      RunKeepsSchema(plan, table, proposals, schema);
      SameCells(after[i], table[i]);
    }
  }

  lemma UnchangedMeansStored(plan: Plan, table: seq<Row>, proposals: seq<Row>)
    requires WellFormed(plan) && Run(plan, table, proposals) == table
    ensures AllStored(plan.key, table, proposals)
  {
    forall k | 0 <= k < |proposals| ensures IsStored(plan.key, table, proposals[k]) {
      if HasKey(plan.key, proposals[k]) {
        var i := EveryKeyIsStored(plan, table, proposals, k);
      } else {
        FreshIsInserted(plan, table, proposals, k);
      }
    }
  }

  /** After a run, every row holds what the last proposed row of its key says. */
  lemma AfterRunRepeated(plan: Plan, table: seq<Row>, proposals: seq<Row>, i: nat)
    requires WellFormed(plan) && Unique(plan.key, table) && i < |Run(plan, table, proposals)|
    ensures Repeated(plan, Run(plan, table, proposals)[i], proposals)
  {
    var row := Run(plan, table, proposals)[i];
    forall k: nat | LastOf(plan.key, proposals, row, k) ensures SameCellsAt(proposals[k], row, plan.update) {
      LastWins(plan, table, proposals, i, k);
    }
  }

  /** A run changes nothing if and only if all it proposes is already there. */
  lemma RunIsNoOp(plan: Plan, table: seq<Row>, proposals: seq<Row>, schema: set<string>)
    requires WellFormed(plan) && Unique(plan.key, table) && plan.update <= schema
    requires HaveColumns(table, schema) && HaveColumns(proposals, schema)
    ensures Run(plan, table, proposals) == table <==> AlreadyThere(plan, table, proposals)
  {
    if Run(plan, table, proposals) == table {
      UnchangedMeansStored(plan, table, proposals);
      forall i | 0 <= i < |table| ensures Repeated(plan, table[i], proposals) {
        AfterRunRepeated(plan, table, proposals, i);
      }
    }
    if AlreadyThere(plan, table, proposals) {
      NothingInserted(plan, table, proposals);
      forall i | 0 <= i < |table| ensures Run(plan, table, proposals)[i] == table[i] {
        RowAlreadyThere(plan, table, proposals, schema, i);
      }
    }
  }

  lemma SameDataRepeated(plan: Plan, first: seq<Row>, second: seq<Row>, row: Row)
    requires SameData(plan, first, second) && Repeated(plan, row, first)
    ensures Repeated(plan, row, second)
  {
    forall k: nat | LastOf(plan.key, second, row, k) ensures SameCellsAt(second[k], row, plan.update) {
      SameDataLast(plan, first, second, row, k);
      assert SameCellsAt(first[k], row, plan.update);
    }
  }

  lemma SameDataLast(plan: Plan, first: seq<Row>, second: seq<Row>, row: Row, k: nat)
    requires SameData(plan, first, second) && LastOf(plan.key, second, row, k)
    ensures LastOf(plan.key, first, row, k)
  {
    assert KeyOf(plan.key, first[k]) == KeyOf(plan.key, second[k]);
    forall l | k < l < |first| ensures !SameKey(plan.key, row, first[l]) {
      assert KeyOf(plan.key, first[l]) == KeyOf(plan.key, second[l]);
    }
  }

  lemma SameDataStored(plan: Plan, table: seq<Row>, first: seq<Row>, second: seq<Row>)
    requires WellFormed(plan) && SameData(plan, first, second)
    requires forall k :: 0 <= k < |first| ==> HasKey(plan.key, first[k])
    ensures AllStored(plan.key, Run(plan, table, first), second)
  {
    forall k | 0 <= k < |second| ensures IsStored(plan.key, Run(plan, table, first), second[k]) {
      assert KeyOf(plan.key, first[k]) == KeyOf(plan.key, second[k]);
      var i := EveryKeyIsStored(plan, table, first, k);
    }
  }

  /** Upserting the same data again changes nothing if and only if no row of it has a null in
      its key: rows that do are inserted again every time. */
  lemma UpsertTwice(plan: Plan, table: seq<Row>, first: seq<Row>, second: seq<Row>, schema: set<string>)
    requires WellFormed(plan) && Unique(plan.key, table) && SameData(plan, first, second) && plan.update <= schema
    requires HaveColumns(table, schema) && HaveColumns(first, schema) && HaveColumns(second, schema)
    ensures Run(plan, Run(plan, table, first), second) == Run(plan, table, first)
       <==> forall k :: 0 <= k < |first| ==> HasKey(plan.key, first[k])
  {
    var once := Run(plan, table, first);
    if k :| 0 <= k < |first| && !HasKey(plan.key, first[k]) {
      assert KeyOf(plan.key, first[k]) == KeyOf(plan.key, second[k]);
      FreshIsInserted(plan, once, second, k);
    } else {
      RunKeepsUnique(plan, table, first);
      RunKeepsSchema(plan, table, first, schema);
      SameDataStored(plan, table, first, second);
      forall i | 0 <= i < |once| ensures Repeated(plan, once[i], second) {
        AfterRunRepeated(plan, table, first, i);
        SameDataRepeated(plan, first, second, once[i]);
      }
      RunIsNoOp(plan, once, second, schema);
    }
  }

  lemma FreshIsInserted(plan: Plan, table: seq<Row>, proposals: seq<Row>, k: nat)
    requires k < |proposals| && !HasKey(plan.key, proposals[k])
    ensures |Run(plan, table, proposals)| > |table|
  {
    assert proposals[..k + 1][..k] == proposals[..k];
    RunGrows(plan, table, proposals, k);
    StepPlaces(plan, Run(plan, table, proposals[..k]), proposals[k]);
    RunGrows(plan, table, proposals, k + 1);
  }

  lemma ProposedKey(schema: set<string>, columns: set<string>, key: set<string>, data: Row, adapt: Value -> Value,
                    defaults: Row)
    requires key <= columns <= schema && columns <= data.Keys
    ensures HasKey(key, Proposed(schema, columns, data, adapt, defaults)) <==> forall c :: c in key ==> !adapt(data[c]).Null?
  {
    assert forall c :: c in key ==> Cell(Proposed(schema, columns, data, adapt, defaults), c) == adapt(data[c]);
  }

  lemma ProposedAgrees(schema: set<string>, columns: set<string>, key: set<string>, data: Row, adapt: Value -> Value,
                       defaults: Row, later: Row)
    requires key <= columns <= schema && columns <= data.Keys
    ensures var p, q := Proposed(schema, columns, data, adapt, defaults), Proposed(schema, columns, data, adapt, later);
            KeyOf(key, p) == KeyOf(key, q) && forall c :: c in columns ==> Cell(p, c) == Cell(q, c)
  {
    SameCellsSameKey(key, Proposed(schema, columns, data, adapt, defaults), Proposed(schema, columns, data, adapt, later));
  }

  lemma ProposalsAgree(schema: set<string>, columns: set<string>, key: set<string>, data: seq<Row>, adapt: Value -> Value,
                       defaults: nat -> Row, later: nat -> Row)
    requires key <= columns <= schema && Covers(columns, data)
    ensures SameData(PlanFor(columns, key), Proposals(schema, columns, data, adapt, defaults),
                     Proposals(schema, columns, data, adapt, later))
  {
    var first := Proposals(schema, columns, data, adapt, defaults);
    var second := Proposals(schema, columns, data, adapt, later);
    forall k | 0 <= k < |data|
      ensures KeyOf(key, first[k]) == KeyOf(key, second[k])
      ensures forall c :: c in columns ==> Cell(first[k], c) == Cell(second[k], c)
    {
      ProposedAgrees(schema, columns, key, data[k], adapt, defaults(k), later(k));
    }
  }

  /** The same about the caller's data: a second upsert of it, the defaults then in force, changes
      nothing exactly when all that it proposes is already there. With every conflict column among
      the columns of the first row this means that no value of a conflict column is null. */
  lemma UpsertDataTwice(schema: set<string>, columns: set<string>, key: set<string>, data: seq<Row>, adapt: Value -> Value,
                        defaults: nat -> Row, later: nat -> Row, table: seq<Row>)
    requires columns <= schema && Covers(columns, data) && Unique(key, table) && HaveColumns(table, schema)
    ensures var plan := PlanFor(columns, key);
            var once := Run(plan, table, Proposals(schema, columns, data, adapt, defaults));
            var second := Proposals(schema, columns, data, adapt, later);
            && (Run(plan, once, second) == once <==> AlreadyThere(plan, once, second))
            && (key <= columns ==>
                  (Run(plan, once, second) == once <==> forall i, c :: 0 <= i < |data| && c in key ==> !adapt(data[i][c]).Null?))
  {
    var plan := PlanFor(columns, key);
    var first := Proposals(schema, columns, data, adapt, defaults);
    var second := Proposals(schema, columns, data, adapt, later);
    ProposalsFit(schema, columns, data, adapt, defaults);
    ProposalsFit(schema, columns, data, adapt, later);
    RunKeepsUnique(plan, table, first);
    RunKeepsSchema(plan, table, first, schema);
    RunIsNoOp(plan, Run(plan, table, first), second, schema);
    if key <= columns { NamedKeyTwice(schema, columns, key, data, adapt, defaults, later, table); }
  }

  lemma NamedKeyTwice(schema: set<string>, columns: set<string>, key: set<string>, data: seq<Row>, adapt: Value -> Value,
                      defaults: nat -> Row, later: nat -> Row, table: seq<Row>)
    requires key <= columns <= schema && Covers(columns, data) && Unique(key, table) && HaveColumns(table, schema)
    ensures (var plan, first := PlanFor(columns, key), Proposals(schema, columns, data, adapt, defaults);
             Run(plan, Run(plan, table, first), Proposals(schema, columns, data, adapt, later))
             == Run(plan, table, first))
       <==> forall i, c :: 0 <= i < |data| && c in key ==> !adapt(data[i][c]).Null?
  {
    var first := Proposals(schema, columns, data, adapt, defaults);
    var second := Proposals(schema, columns, data, adapt, later);
    ProposalsFit(schema, columns, data, adapt, defaults);
    ProposalsFit(schema, columns, data, adapt, later);
    ProposalsAgree(schema, columns, key, data, adapt, defaults, later);
    UpsertTwice(PlanFor(columns, key), table, first, second, schema);
    forall i | 0 <= i < |data|
      ensures HasKey(key, first[i]) <==> forall c :: c in key ==> !adapt(data[i][c]).Null?
    {
      ProposedKey(schema, columns, key, data[i], adapt, defaults(i));
    }
  }

  /** When a conflict column is not among the columns and its default is null or a value no row
      holds yet, as for a generated id, the data is inserted again by every run. */
  lemma UnnamedKeyInsertsAgain(schema: set<string>, columns: set<string>, key: set<string>, data: seq<Row>,
                               adapt: Value -> Value, defaults: nat -> Row, table: seq<Row>, c: string)
    requires data != [] && Covers(columns, data) && c in key - columns && c in schema
    requires Cell(defaults(0), c).Null? || forall j :: 0 <= j < |table| ==> Cell(table[j], c) != Cell(defaults(0), c)
    ensures |Run(PlanFor(columns, key), table, Proposals(schema, columns, data, adapt, defaults))| > |table|
  {
    var plan := PlanFor(columns, key);
    var ps := Proposals(schema, columns, data, adapt, defaults);
    assert Cell(ps[0], c) == Cell(defaults(0), c);
    forall i | 0 <= i < |table| ensures !SameKey(key, table[i], ps[0]) {
      KeyCell(key, table[i], ps[0], c);
    }
    FirstIsInserted(plan, table, ps);
  }

  lemma KeyCell(key: set<string>, a: Row, b: Row, c: string)
    requires c in key
    ensures SameKey(key, a, b) ==> Cell(a, c) == Cell(b, c) && !Cell(a, c).Null?
  {
    if SameKey(key, a, b) {
      assert KeyOf(key, a).value[c] == KeyOf(key, b).value[c];
    }
  }

  lemma FirstIsInserted(plan: Plan, table: seq<Row>, proposals: seq<Row>)
    requires proposals != [] && forall i :: 0 <= i < |table| ==> !SameKey(plan.key, table[i], proposals[0])
    ensures |Run(plan, table, proposals)| > |table|
  {
    assert Run(plan, table, proposals[..1][..0]) == table;
    StepPlaces(plan, table, proposals[0]);
    RunGrows(plan, table, proposals, 1);
  }

  // ------------------------------------------------------------------
  // In terms of the caller's data
  // ------------------------------------------------------------------

  /** What an upsert is given: the table's columns and key, the columns named by the first row,
      the data, and how values are adapted and left-out columns filled. */
  datatype Upsert = Upsert(schema: set<string>, key: set<string>, columns: set<string>, data: seq<Row>,
                           adapt: Value -> Value, defaults: nat -> Row)

  /** The value the k-th row of the data sends for a column: the caller's own where it is named,
      else the default in force. */
  function Sent(u: Upsert, k: nat, c: string): Value
    requires Covers(u.columns, u.data) && k < |u.data|
  {
    if c !in u.schema then Null else if c in u.columns then u.adapt(u.data[k][c]) else Cell(u.defaults(k), c)
  }

  /** The row has the key that the k-th row of the data sends, without a null in it. */
  predicate HasKeyOf(u: Upsert, row: Row, k: nat)
    requires Covers(u.columns, u.data) && k < |u.data|
  {
    forall c :: c in u.key ==> !Cell(row, c).Null? && Cell(row, c) == Sent(u, k, c)
  }

  /** The k-th row of the data is the last one with the key of the row. */
  ghost predicate IsLastFor(u: Upsert, row: Row, k: nat)
    requires Covers(u.columns, u.data)
  {
    && k < |u.data| && HasKeyOf(u, row, k)
    && forall l :: k < l < |u.data| ==> !HasKeyOf(u, row, l)
  }

  /** An old row after the upsert: its `created_at`, its key and the columns that were not named
      are its own; each other named column holds the value of the last row of the data with its
      key, and its own if there is none. */
  ghost predicate KeptAs(u: Upsert, before: Row, after: Row)
    requires Covers(u.columns, u.data)
  {
    && (forall c :: c == "created_at" || c in u.key || c !in u.columns ==> Cell(after, c) == Cell(before, c))
    && (forall k: nat, c :: IsLastFor(u, before, k) && c in u.columns && c != "created_at" && c !in u.key ==>
          Cell(after, c) == u.adapt(u.data[k][c]))
    && ((forall k :: 0 <= k < |u.data| ==> !HasKeyOf(u, before, k)) ==> forall c :: Cell(after, c) == Cell(before, c))
  }

  /** A new row: it comes from a row of the data whose key no old row and no earlier row of the
      data has; its `created_at`, its key and the columns that were not named are those that row
      sent, and each other named column holds the value of the last row of the data with its key,
      or what that row sent if its key has a null in it. */
  ghost predicate ComesFrom(u: Upsert, table: seq<Row>, after: Row, k: nat)
    requires Covers(u.columns, u.data)
  {
    && k < |u.data|
    && (forall j :: 0 <= j < |table| ==> !HasKeyOf(u, table[j], k))
    && (forall l :: 0 <= l < k ==> !(HasKeyOf(u, after, k) && HasKeyOf(u, after, l)))
    && (forall c :: c == "created_at" || c in u.key || c !in u.columns ==> Cell(after, c) == Sent(u, k, c))
    && (forall l: nat, c :: IsLastFor(u, after, l) && c in u.columns && c != "created_at" && c !in u.key ==>
          Cell(after, c) == u.adapt(u.data[l][c]))
    && (!HasKeyOf(u, after, k) ==> forall c :: Cell(after, c) == Sent(u, k, c))
  }

  ghost predicate HasSource(u: Upsert, table: seq<Row>, after: Row)
    requires Covers(u.columns, u.data)
  {
    exists k :: ComesFrom(u, table, after, k)
  }

  ghost predicate Stores(u: Upsert, table: seq<Row>, k: nat)
    requires Covers(u.columns, u.data) && k < |u.data|
  {
    exists i :: 0 <= i < |table| && HasKeyOf(u, table[i], k)
  }

  /** The whole table after an upsert. */
  ghost predicate UpsertedTo(u: Upsert, table: seq<Row>, after: seq<Row>) {
    && Covers(u.columns, u.data)
    && |after| >= |table|
    && (forall i :: 0 <= i < |table| ==> KeptAs(u, table[i], after[i]))
    && (forall i :: |table| <= i < |after| ==> HasSource(u, table, after[i]))
    && (forall k :: 0 <= k < |u.data| && (forall c :: c in u.key ==> !Sent(u, k, c).Null?) ==> Stores(u, after, k))
  }

  function RowsOf(u: Upsert): (ps: seq<Row>)
    requires Covers(u.columns, u.data)
    ensures |ps| == |u.data|
  {
    Proposals(u.schema, u.columns, u.data, u.adapt, u.defaults)
  }

  lemma SentIsProposed(u: Upsert, k: nat, c: string)
    requires Covers(u.columns, u.data) && k < |u.data|
    ensures Cell(RowsOf(u)[k], c) == Sent(u, k, c)
  {
    assert RowsOf(u)[k] == Proposed(u.schema, u.columns, u.data[k], u.adapt, u.defaults(k));
  }

  lemma SameKeyCells(key: set<string>, a: Row, b: Row)
    ensures SameKey(key, a, b) <==> forall c :: c in key ==> !Cell(a, c).Null? && Cell(a, c) == Cell(b, c)
  {
    if SameKey(key, a, b) {
      forall c | c in key ensures !Cell(a, c).Null? && Cell(a, c) == Cell(b, c) { KeyCell(key, a, b, c); }
    }
    if forall c :: c in key ==> !Cell(a, c).Null? && Cell(a, c) == Cell(b, c) { SameCellsSameKey(key, a, b); }
  }

  lemma SameKeySent(u: Upsert, row: Row, k: nat)
    requires Covers(u.columns, u.data) && k < |u.data|
    ensures SameKey(u.key, row, RowsOf(u)[k]) <==> HasKeyOf(u, row, k)
  {
    SameKeyCells(u.key, row, RowsOf(u)[k]);
    forall c ensures Cell(RowsOf(u)[k], c) == Sent(u, k, c) { SentIsProposed(u, k, c); }
  }

  lemma LastOfSent(u: Upsert, row: Row, k: nat)
    requires Covers(u.columns, u.data)
    ensures LastOf(u.key, RowsOf(u), row, k) <==> IsLastFor(u, row, k)
  {
    forall l | 0 <= l < |u.data| ensures SameKey(u.key, row, RowsOf(u)[l]) <==> HasKeyOf(u, row, l) { SameKeySent(u, row, l); }
  }

  lemma NamedColumn(u: Upsert, k: nat, c: string)
    requires Covers(u.columns, u.data) && k < |u.data| && c in u.columns && u.columns <= u.schema
    ensures Sent(u, k, c) == u.adapt(u.data[k][c])
  {
  }

  lemma OldRowMeaning(u: Upsert, table: seq<Row>, i: nat)
    requires Covers(u.columns, u.data) && u.columns <= u.schema && Unique(u.key, table) && i < |table|
    ensures var after := Run(PlanFor(u.columns, u.key), table, RowsOf(u));
            |after| >= |table| && KeptAs(u, table[i], after[i])
  {
    var plan, ps := PlanFor(u.columns, u.key), RowsOf(u);
    var after := Run(plan, table, ps);
    ExistingRowsKeep(plan, table, ps, i);
    ExistingKeyKept(plan, table, ps, i);
    forall k: nat, c | IsLastFor(u, table[i], k) && c in u.columns && c != "created_at" && c !in u.key
      ensures Cell(after[i], c) == u.adapt(u.data[k][c])
    {
      LastOfSent(u, table[i], k);
      LastOfKey(u.key, ps, table[i], after[i], k);
      LastWins(plan, table, ps, i, k);
      SentIsProposed(u, k, c);
    }
    if forall k :: 0 <= k < |u.data| ==> !HasKeyOf(u, table[i], k) {
      forall k | 0 <= k < |ps| ensures !SameKey(u.key, table[i], ps[k]) { SameKeySent(u, table[i], k); }
      OthersUntouched(plan, table, ps, i);
    }
  }

  lemma NewRowCells(u: Upsert, table: seq<Row>, i: nat, k: nat)
    requires Covers(u.columns, u.data) && u.columns <= u.schema && Unique(u.key, table)
    requires |table| <= i < |Run(PlanFor(u.columns, u.key), table, RowsOf(u))|
    ensures var after := Run(PlanFor(u.columns, u.key), table, RowsOf(u))[i];
            forall l: nat, c :: IsLastFor(u, after, l) && c in u.columns && c != "created_at" && c !in u.key ==>
              Cell(after, c) == u.adapt(u.data[l][c])
  {
    var plan, ps := PlanFor(u.columns, u.key), RowsOf(u);
    var after := Run(plan, table, ps)[i];
    forall l: nat, c | IsLastFor(u, after, l) && c in u.columns && c != "created_at" && c !in u.key
      ensures Cell(after, c) == u.adapt(u.data[l][c])
    {
      LastOfSent(u, after, l);
      LastWins(plan, table, ps, i, l);
      SentIsProposed(u, l, c);
    }
  }

  lemma NewRowMeaning(u: Upsert, table: seq<Row>, i: nat)
    requires Covers(u.columns, u.data) && u.columns <= u.schema && Unique(u.key, table)
    requires |table| <= i < |Run(PlanFor(u.columns, u.key), table, RowsOf(u))|
    ensures HasSource(u, table, Run(PlanFor(u.columns, u.key), table, RowsOf(u))[i])
  {
    var plan, ps := PlanFor(u.columns, u.key), RowsOf(u);
    var after := Run(plan, table, ps)[i];
    var k := NewRowsOrigin(plan, table, ps, i);
    NewRowCells(u, table, i, k);
    OriginIsSource(u, table, after, k);
  }

  lemma OriginIsSource(u: Upsert, table: seq<Row>, after: Row, k: nat)
    requires Covers(u.columns, u.data) && k < |u.data|
    requires forall c :: c !in PlanFor(u.columns, u.key).update ==> Cell(after, c) == Cell(RowsOf(u)[k], c)
    requires forall j :: 0 <= j < |table| ==> !SameKey(u.key, table[j], RowsOf(u)[k])
    requires forall l :: 0 <= l < k ==> !SameKey(u.key, RowsOf(u)[l], RowsOf(u)[k])
    requires HasKey(u.key, RowsOf(u)[k]) || after == RowsOf(u)[k]
    requires forall l: nat, c :: IsLastFor(u, after, l) && c in u.columns && c != "created_at" && c !in u.key ==>
               Cell(after, c) == u.adapt(u.data[l][c])
    ensures ComesFrom(u, table, after, k)
  {
    var ps := RowsOf(u);
    forall c ensures Cell(ps[k], c) == Sent(u, k, c) { SentIsProposed(u, k, c); }
    forall j | 0 <= j < |table| ensures !HasKeyOf(u, table[j], k) { SameKeySent(u, table[j], k); }
    SameCellsSameKey(u.key, after, ps[k]);
    SameKeySent(u, after, k);
    forall l | 0 <= l < k ensures !(HasKeyOf(u, after, k) && HasKeyOf(u, after, l)) { SameKeySent(u, after, l); }
  }

  lemma KeyIsStored(u: Upsert, table: seq<Row>, k: nat)
    requires Covers(u.columns, u.data) && k < |u.data| && forall c :: c in u.key ==> !Sent(u, k, c).Null?
    ensures Stores(u, Run(PlanFor(u.columns, u.key), table, RowsOf(u)), k)
  {
    var plan, ps := PlanFor(u.columns, u.key), RowsOf(u);
    forall c | c in u.key ensures !Cell(ps[k], c).Null? { SentIsProposed(u, k, c); }
    var i := EveryKeyIsStored(plan, table, ps, k);
    SameKeySent(u, Run(plan, table, ps)[i], k);
  }

  /** Which columns `on_conflict` names: those between its commas, and `id` if it is empty. */
  lemma ConflictColumnsMeaning(names: seq<string>)
    requires names != [] && forall i :: 0 <= i < |names| ==> names[i] != "" && Trimmed(names[i]) && ',' !in names[i]
    ensures ConflictColumns("") == {"id"}
    ensures ConflictColumns(Join(names, ",")) == set i | 0 <= i < |names| :: names[i]
  {
    OneName();
    SplitJoin(names, ',');
    NamesJoined(names);
    forall i | 0 <= i < |names| ensures Strip(names[i]) == names[i] { StripTrimmed(names[i]); }
    var columns := ConflictColumns(Join(names, ","));
    forall c ensures c in columns <==> exists i :: 0 <= i < |names| && names[i] == c {
      if c in columns { var f :| f in names && Strip(f) != "" && Strip(f) == c; }
      if i :| 0 <= i < |names| && names[i] == c { assert names[i] in names; }
    }
  }

  lemma OneName()
    ensures ConflictColumns("") == {"id"}
  {
    assert ',' !in "id";
    SplitNoSep("id", ',');
    StripTrimmed("id");
    assert "id" in Split("id", ',');
  }

  lemma NamesJoined(names: seq<string>)
    requires names != [] && names[0] != ""
    ensures Join(names, ",") != ""
  {
  }

  /** What a committed upsert does, told from the caller's data and the old rows. */
  lemma UpsertMeaning(u: Upsert, table: seq<Row>)
    requires Covers(u.columns, u.data) && u.columns <= u.schema && Unique(u.key, table)
    ensures UpsertedTo(u, table, Run(PlanFor(u.columns, u.key), table, RowsOf(u)))
  {
    var after := Run(PlanFor(u.columns, u.key), table, RowsOf(u));
    RunGrows(PlanFor(u.columns, u.key), table, RowsOf(u), 0);
    forall i | 0 <= i < |table| ensures KeptAs(u, table[i], after[i]) { OldRowMeaning(u, table, i); }
    forall i | |table| <= i < |after| ensures HasSource(u, table, after[i]) { NewRowMeaning(u, table, i); }
    forall k | 0 <= k < |u.data| && (forall c :: c in u.key ==> !Sent(u, k, c).Null?) ensures Stores(u, after, k) {
      KeyIsStored(u, table, k);
    }
  }
}

/** Writing consent events: insert_event and log_operation of db/consent.py, which bind their
    parameters by position, and ConsentDBService.insert_event of
    hushh_mcp/services/consent_db.py, which builds the row by column name. */
module ConsentEvents {
  import opened Text
  import J = Json

  datatype Row = Row(
    id: nat, tokenId: string, userId: string, agentId: string, scope: string, action: string,
    requestId: Option<string>, scopeDescription: Option<string>, issuedAt: int,
    expiresAt: Option<int>, pollTimeoutAt: Option<int>, metadata: Option<string>)

  /** The arguments of an insertion. No metadata and empty metadata are treated alike. */
  datatype Event = Event(
    userId: string, agentId: string, scope: string, action: string, tokenId: string,
    requestId: Option<string>, scopeDescription: Option<string>, expiresAt: Option<int>,
    pollTimeoutAt: Option<int>, metadata: map<string, J.Json>)

  // ------------------------------------------------------------------
  // Internal events
  // ------------------------------------------------------------------

  const INTERNAL_AGENTS: set<string> := {"self", "agent_kai", "kai"}

  const NOTIFICATION_ACTIONS: set<string> := {"NOTIFICATION_SENT", "REMINDER_SENT", "NOTIFICATION_OPENED"}

  /** _is_internal_event of db/consent.py */
  predicate IsInternal(agentId: string, action: string, scope: string) {
    var agent := Lower(Strip(agentId));
    Upper(Strip(action)) == "OPERATION_PERFORMED"
    || agent in INTERNAL_AGENTS
    || (Lower(Strip(scope)) == "vault.owner" && (agent == "" || agent == "system"))
  }

  /** _is_internal_event of the service, which also counts its own notifications. */
  predicate IsServiceInternal(agentId: string, action: string, scope: string) {
    IsInternal(agentId, action, scope) || Upper(Strip(action)) in NOTIFICATION_ACTIONS
  }

  predicate InternalEvent(e: Event, service: bool) {
    if service then IsServiceInternal(e.agentId, e.action, e.scope) else IsInternal(e.agentId, e.action, e.scope)
  }

  // ------------------------------------------------------------------
  // The databases
  // ------------------------------------------------------------------

  datatype Table = Audit | Internal

  datatype Column =
    | TokenId | UserId | AgentId | Scope | Action | RequestId | ScopeDescription
    | IssuedAt | ExpiresAt | Metadata | PollTimeoutAt

  datatype Cell = Null | Int(n: int) | Chars(s: string)

  type Record = map<Column, Cell>

  /** A PostgreSQL database, by how far its migrations have come: whether it has the table
      internal_access_events, whether request ids of consent_audit are TEXT, and the default of
      its metadata; or the SQLite file of the offline mode. */
  datatype Database =
    | Postgres(internalExists: bool, textRequestIds: bool, metadataDefault: Option<string>)
    | OfflineSqlite

  /** json.dumps, and the texts a JSONB column takes. */
  datatype Codec = Codec(dumps: map<string, J.Json> -> string, isJson: string -> bool)

  const REQUEST_ID_LIMIT: nat := 32

  predicate IsBigInt(c: Column) {
    c.IssuedAt? || c.ExpiresAt? || c.PollTimeoutAt?
  }

  predicate InInt64(n: int) {
    -0x8000_0000_0000_0000 <= n <= 0x7FFF_FFFF_FFFF_FFFF
  }

  /** VARCHAR(32) refuses a longer text unless only blanks would be cut off. */
  function FitRequestId(s: string): Option<Cell> {
    if |s| <= REQUEST_ID_LIMIT then Some(Chars(s))
    else if forall i :: REQUEST_ID_LIMIT <= i < |s| ==> s[i] == ' ' then Some(Chars(s[..REQUEST_ID_LIMIT]))
    else None
  }

  predicate LimitsRequestId(db: Database, t: Table) {
    db.Postgres? && (t.Internal? || !db.textRequestIds)
  }

  /** What a column keeps of a value, None when the value is refused. SQLite takes anything;
      PostgreSQL takes what the type of the column allows. */
  function Stored(db: Database, t: Table, c: Column, v: Cell, codec: Codec): Option<Cell> {
    match v
    case Null => Some(Null)
    case Int(n) => if InInt64(n) && (db.OfflineSqlite? || IsBigInt(c)) then Some(v) else None
    case Chars(s) =>
      if db.OfflineSqlite? then Some(v)
      else if IsBigInt(c) || '\0' in s then None
      else if c.Metadata? then (if codec.isJson(s) then Some(v) else None)
      else if c.RequestId? && LimitsRequestId(db, t) then FitRequestId(s)
      else Some(v)
  }

  /** The record a table keeps, if it takes every value. */
  function StoredRecord(db: Database, t: Table, record: Record, codec: Codec): Option<Record> {
    if forall c :: c in record ==> Stored(db, t, c, record[c], codec).Some?
    then Some(map c | c in record :: Stored(db, t, c, record[c], codec).value)
    else None
  }

  function CellAt(record: Record, c: Column): Cell {
    if c in record then record[c] else Null
  }

  function CharsAt(record: Record, c: Column): Option<string> {
    if CellAt(record, c).Chars? then Some(CellAt(record, c).s) else None
  }

  function IntAt(record: Record, c: Column): Option<int> {
    if CellAt(record, c).Int? then Some(CellAt(record, c).n) else None
  }

  function OrEmpty(s: Option<string>): string {
    if s.Some? then s.value else ""
  }

  /** A kept record read back as a row. */
  function AsRow(id: nat, r: Record): Row {
    Row(id, OrEmpty(CharsAt(r, TokenId)), OrEmpty(CharsAt(r, UserId)), OrEmpty(CharsAt(r, AgentId)),
        OrEmpty(CharsAt(r, Scope)), OrEmpty(CharsAt(r, Action)), CharsAt(r, RequestId), CharsAt(r, ScopeDescription),
        if IntAt(r, IssuedAt).Some? then IntAt(r, IssuedAt).value else 0,
        IntAt(r, ExpiresAt), IntAt(r, PollTimeoutAt), CharsAt(r, Metadata))
  }

  // ------------------------------------------------------------------
  // The event as it is meant to be stored
  // ------------------------------------------------------------------

  function Home(e: Event, service: bool): Table {
    if InternalEvent(e, service) then Internal else Audit
  }

  function TokenOf(e: Event, now: int): string {
    if e.tokenId == "" then "evt_" + IntText(now) else e.tokenId
  }

  function MaybeChars(s: Option<string>): Cell {
    if s.Some? then Chars(s.value) else Null
  }

  function MaybeInt(n: Option<int>): Cell {
    if n.Some? then Int(n.value) else Null
  }

  /** The value meant for a column. */
  function ValueFor(c: Column, e: Event, now: int, metadata: Cell): Cell {
    match c
    case TokenId => Chars(TokenOf(e, now))
    case UserId => Chars(e.userId)
    case AgentId => Chars(e.agentId)
    case Scope => Chars(e.scope)
    case Action => Chars(e.action)
    case RequestId => MaybeChars(e.requestId)
    case ScopeDescription => MaybeChars(e.scopeDescription)
    case IssuedAt => Int(now)
    case ExpiresAt => MaybeInt(e.expiresAt)
    case Metadata => metadata
    case PollTimeoutAt => MaybeInt(e.pollTimeoutAt)
  }

  /** internal_access_events has no poll_timeout_at. */
  predicate HasColumn(t: Table, c: Column) {
    t.Audit? || !c.PollTimeoutAt?
  }

  /** Each value under its own column. */
  function Named(t: Table, e: Event, now: int, metadata: Cell): Record {
    map c: Column | HasColumn(t, c) :: ValueFor(c, e, now, metadata)
  }

  /** The row of an event whose values are all kept as given. */
  function GivenRow(t: Table, e: Event, now: int, id: nat, metadata: Option<string>): Row {
    Row(id, TokenOf(e, now), e.userId, e.agentId, e.scope, e.action, e.requestId, e.scopeDescription, now,
        e.expiresAt, if t.Audit? then e.pollTimeoutAt else None, metadata)
  }

  predicate CleanText(db: Database, s: string) {
    db.Postgres? ==> '\0' !in s
  }

  predicate CleanMaybe(db: Database, s: Option<string>) {
    s.Some? ==> CleanText(db, s.value)
  }

  /** What a column asks of an event to keep its value as given. */
  predicate FitsColumn(db: Database, t: Table, c: Column, e: Event, now: int, metadata: Cell, codec: Codec) {
    match c
    case TokenId => CleanText(db, TokenOf(e, now))
    case UserId => CleanText(db, e.userId)
    case AgentId => CleanText(db, e.agentId)
    case Scope => CleanText(db, e.scope)
    case Action => CleanText(db, e.action)
    case RequestId =>
      CleanMaybe(db, e.requestId)
      && (e.requestId.Some? && LimitsRequestId(db, t) ==> |e.requestId.value| <= REQUEST_ID_LIMIT)
    case ScopeDescription => CleanMaybe(db, e.scopeDescription)
    case IssuedAt => InInt64(now)
    case ExpiresAt => e.expiresAt.Some? ==> InInt64(e.expiresAt.value)
    case Metadata => db.Postgres? && metadata.Chars? ==> '\0' !in metadata.s && codec.isJson(metadata.s)
    case PollTimeoutAt => e.pollTimeoutAt.Some? ==> InInt64(e.pollTimeoutAt.value)
  }

  /** Whether the table t can keep the values of an event of the kind of `home` as given. */
  predicate Fits(db: Database, t: Table, home: Table, e: Event, now: int, metadata: Cell, codec: Codec) {
    forall c: Column :: HasColumn(home, c) ==> FitsColumn(db, t, c, e, now, metadata, codec)
  }

  predicate Keeps(db: Database, t: Table, c: Column, v: Cell, codec: Codec) {
    Stored(db, t, c, v, codec) == Some(v)
  }

  lemma RecordIsKept(db: Database, t: Table, r: Record, codec: Codec)
    ensures StoredRecord(db, t, r, codec) == Some(r) <==> forall c :: c in r ==> Keeps(db, t, c, r[c], codec)
  {
    var stored := StoredRecord(db, t, r, codec);
    if stored == Some(r) {
      forall c | c in r ensures Keeps(db, t, c, r[c], codec) {
        assert stored.value[c] == r[c];
      }
    }
    if forall c :: c in r ==> Keeps(db, t, c, r[c], codec) {
      assert stored.value == r;
    }
  }

  lemma ColumnIsKept(db: Database, t: Table, c: Column, e: Event, now: int, metadata: Cell, codec: Codec)
    requires !metadata.Int?
    ensures Keeps(db, t, c, ValueFor(c, e, now, metadata), codec) <==> FitsColumn(db, t, c, e, now, metadata, codec)
  {
  }

  lemma NamedCells(home: Table, e: Event, now: int, metadata: Cell)
    ensures forall c :: c in Named(home, e, now, metadata) <==> HasColumn(home, c)
    ensures forall c :: HasColumn(home, c) ==> Named(home, e, now, metadata)[c] == ValueFor(c, e, now, metadata)
  {
  }

  /** A record named as meant is kept unchanged exactly when its values fit. */
  lemma NamedIsKept(db: Database, t: Table, home: Table, e: Event, now: int, metadata: Cell, codec: Codec)
    requires !metadata.Int?
    ensures StoredRecord(db, t, Named(home, e, now, metadata), codec) == Some(Named(home, e, now, metadata))
       <==> Fits(db, t, home, e, now, metadata, codec)
  {
    NamedCells(home, e, now, metadata);
    RecordIsKept(db, t, Named(home, e, now, metadata), codec);
    forall c: Column
      ensures Keeps(db, t, c, ValueFor(c, e, now, metadata), codec) <==> FitsColumn(db, t, c, e, now, metadata, codec)
    {
      ColumnIsKept(db, t, c, e, now, metadata, codec);
    }
  }

  /** A kept value that does not fit is a request id cut short. */
  lemma CutShort(db: Database, t: Table, c: Column, e: Event, now: int, metadata: Cell, codec: Codec)
    requires !metadata.Int? && !FitsColumn(db, t, c, e, now, metadata, codec)
    requires Stored(db, t, c, ValueFor(c, e, now, metadata), codec).Some?
    ensures c.RequestId? && e.requestId.Some? && |e.requestId.value| > REQUEST_ID_LIMIT
    ensures Stored(db, t, c, ValueFor(c, e, now, metadata), codec) == Some(Chars(e.requestId.value[..REQUEST_ID_LIMIT]))
  {
  }

  lemma NamedRow(t: Table, e: Event, now: int, id: nat, metadata: Option<string>)
    ensures AsRow(id, Named(t, e, now, MaybeChars(metadata))) == GivenRow(t, e, now, id, metadata)
  {
  }

  // ------------------------------------------------------------------
  // insert_event of db/consent.py: parameters by position
  // ------------------------------------------------------------------

  /** The columns of the statement, in its order. */
  function StatementColumns(t: Table): (columns: seq<Column>)
    ensures |columns| == if t.Audit? then 11 else 10
  {
    [TokenId, UserId, AgentId, Scope, Action, RequestId, ScopeDescription, IssuedAt, ExpiresAt, Metadata]
    + (if t.Audit? then [PollTimeoutAt] else [])
  }

  /** The parameters, "reordered to match consent_audit column order" for that table. */
  function StatementParams(t: Table, e: Event, now: int, codec: Codec): (params: seq<Cell>)
    ensures |params| == if t.Audit? then 11 else 10
  {
    [Chars(TokenOf(e, now)), Chars(e.userId), Chars(e.agentId), Chars(e.scope), Chars(e.action),
     MaybeChars(e.requestId), MaybeChars(e.scopeDescription), Int(now), MaybeInt(e.expiresAt)]
    + (if t.Audit? then [MaybeInt(e.pollTimeoutAt), Chars(codec.dumps(e.metadata))]
       else [Chars(codec.dumps(e.metadata))])
  }

  predicate Distinct(columns: seq<Column>) {
    forall i, j :: 0 <= i < j < |columns| ==> columns[i] != columns[j]
  }

  /** VALUES ($1, $2, ...): the i-th column takes the i-th parameter. */
  function Bound(columns: seq<Column>, params: seq<Cell>): Record
    requires |columns| == |params| && Distinct(columns)
  {
    map i | 0 <= i < |columns| :: columns[i] := params[i]
  }

  lemma BoundAt(columns: seq<Column>, params: seq<Cell>, i: nat)
    requires |columns| == |params| && Distinct(columns) && i < |columns|
    ensures columns[i] in Bound(columns, params) && Bound(columns, params)[columns[i]] == params[i]
  {
  }

  function Position(c: Column): nat {
    match c
    case TokenId => 0
    case UserId => 1
    case AgentId => 2
    case Scope => 3
    case Action => 4
    case RequestId => 5
    case ScopeDescription => 6
    case IssuedAt => 7
    case ExpiresAt => 8
    case Metadata => 9
    case PollTimeoutAt => 10
  }

  lemma ColumnsInOrder(t: Table)
    ensures Distinct(StatementColumns(t))
    ensures forall c :: HasColumn(t, c) ==> Position(c) < |StatementColumns(t)| && StatementColumns(t)[Position(c)] == c
    ensures forall c :: c in StatementColumns(t) ==> HasColumn(t, c)
  {
    var columns := StatementColumns(t);
    forall i | 0 <= i < |columns| ensures Position(columns[i]) == i {
    }
  }

  /** The value the statement sends for a column. */
  function SentFor(t: Table, c: Column, e: Event, now: int, codec: Codec): Cell {
    var metadata := Chars(codec.dumps(e.metadata));
    if t.Audit? && c.Metadata? then MaybeInt(e.pollTimeoutAt)
    else if t.Audit? && c.PollTimeoutAt? then metadata
    else ValueFor(c, e, now, metadata)
  }

  lemma ParamAt(t: Table, c: Column, e: Event, now: int, codec: Codec)
    requires HasColumn(t, c)
    ensures StatementParams(t, e, now, codec)[Position(c)] == SentFor(t, c, e, now, codec)
  {
  }

  /** The statement for internal_access_events binds each value to its own column. The one for
      consent_audit binds the metadata to poll_timeout_at and the poll timeout to metadata. */
  lemma StatementMeaning(t: Table, e: Event, now: int, codec: Codec)
    ensures Distinct(StatementColumns(t))
    ensures Bound(StatementColumns(t), StatementParams(t, e, now, codec))
         == map c: Column | HasColumn(t, c) :: SentFor(t, c, e, now, codec)
  {
    ColumnsInOrder(t);
    var columns, params := StatementColumns(t), StatementParams(t, e, now, codec);
    forall c | HasColumn(t, c) ensures c in Bound(columns, params) && Bound(columns, params)[c] == SentFor(t, c, e, now, codec) {
      BoundAt(columns, params, Position(c));
      ParamAt(t, c, e, now, codec);
    }
  }

  /** What insert_event leaves behind: the table and the row, if it stores one. On PostgreSQL the
      statement commits by itself. The offline pool runs it, but closes the connection without a
      commit, so that nothing stays. */
  function DirectKept(db: Database, e: Event, now: int, id: nat, codec: Codec): Option<(Table, Row)> {
    var t := Home(e, false);
    StatementMeaning(t, e, now, codec);
    if db.OfflineSqlite? || (t.Internal? && !db.internalExists) then None
    else
      match StoredRecord(db, t, Bound(StatementColumns(t), StatementParams(t, e, now, codec)), codec)
      case None => None
      case Some(record) => Some((t, AsRow(id, record)))
  }

  /** What it returns, None when it raises. */
  function DirectReturns(db: Database, e: Event, now: int, id: nat, codec: Codec): Option<nat> {
    var t := Home(e, false);
    StatementMeaning(t, e, now, codec);
    if db.Postgres? && t.Internal? && !db.internalExists then None
    else if StoredRecord(db, t, Bound(StatementColumns(t), StatementParams(t, e, now, codec)), codec).None? then None
    else Some(id)
  }

  lemma InternalStatement(e: Event, now: int, codec: Codec)
    ensures Distinct(StatementColumns(Internal))
    ensures Bound(StatementColumns(Internal), StatementParams(Internal, e, now, codec))
         == Named(Internal, e, now, Chars(codec.dumps(e.metadata)))
  {
    StatementMeaning(Internal, e, now, codec);
    NamedCells(Internal, e, now, Chars(codec.dumps(e.metadata)));
  }

  function AuditStatement(e: Event, now: int, codec: Codec): Record {
    StatementMeaning(Audit, e, now, codec);
    Bound(StatementColumns(Audit), StatementParams(Audit, e, now, codec))
  }

  lemma AuditStatementAt(e: Event, now: int, codec: Codec, c: Column)
    ensures c in AuditStatement(e, now, codec) && AuditStatement(e, now, codec)[c] == SentFor(Audit, c, e, now, codec)
  {
    StatementMeaning(Audit, e, now, codec);
  }

  /** PostgreSQL refuses the metadata text in the integer column. */
  lemma PostgresRefusesAudit(db: Database, e: Event, now: int, codec: Codec)
    requires db.Postgres?
    ensures StoredRecord(db, Audit, AuditStatement(e, now, codec), codec) == None
  {
    AuditStatementAt(e, now, codec, PollTimeoutAt);
  }

  predicate SqliteFits(c: Column, e: Event, now: int) {
    && (c.IssuedAt? ==> InInt64(now))
    && (c.ExpiresAt? && e.expiresAt.Some? ==> InInt64(e.expiresAt.value))
    && (c.Metadata? && e.pollTimeoutAt.Some? ==> InInt64(e.pollTimeoutAt.value))
  }

  lemma SqliteTakes(c: Column, e: Event, now: int, codec: Codec)
    ensures Stored(OfflineSqlite, Audit, c, SentFor(Audit, c, e, now, codec), codec).Some? <==> SqliteFits(c, e, now)
  {
  }

  /** SQLite takes any value anywhere, as long as it is an integer of eight bytes or a text. */
  lemma SqliteTakesAudit(e: Event, now: int, codec: Codec)
    ensures StoredRecord(OfflineSqlite, Audit, AuditStatement(e, now, codec), codec).Some?
       <==> InInt64(now) && (e.expiresAt.Some? ==> InInt64(e.expiresAt.value))
            && (e.pollTimeoutAt.Some? ==> InInt64(e.pollTimeoutAt.value))
  {
    var r := AuditStatement(e, now, codec);
    forall c ensures c in r && (Stored(OfflineSqlite, Audit, c, r[c], codec).Some? <==> SqliteFits(c, e, now)) {
      AuditStatementAt(e, now, codec, c);
      SqliteTakes(c, e, now, codec);
    }
    assert (forall c :: SqliteFits(c, e, now))
      <==> SqliteFits(IssuedAt, e, now) && SqliteFits(ExpiresAt, e, now) && SqliteFits(Metadata, e, now);
  }

  /** insert_event never stores an external event, on any database. On PostgreSQL the call
      raises; the offline call returns an id as if all were well. */
  lemma ExternalIsNeverStored(db: Database, e: Event, now: int, id: nat, codec: Codec)
    requires !InternalEvent(e, false)
    ensures DirectKept(db, e, now, id, codec) == None
    ensures db.Postgres? ==> DirectReturns(db, e, now, id, codec) == None
    ensures db.OfflineSqlite? ==>
              (DirectReturns(db, e, now, id, codec) == Some(id)
               <==> InInt64(now) && (e.expiresAt.Some? ==> InInt64(e.expiresAt.value))
                    && (e.pollTimeoutAt.Some? ==> InInt64(e.pollTimeoutAt.value)))
  {
    if db.Postgres? { PostgresRefusesAudit(db, e, now, codec); } else { SqliteTakesAudit(e, now, codec); }
  }

  lemma KeptRow(db: Database, t: Table, home: Table, e: Event, now: int, id: nat, metadata: Option<string>, codec: Codec)
    ensures StoredRecord(db, t, Named(home, e, now, MaybeChars(metadata)), codec).Some?
            && AsRow(id, StoredRecord(db, t, Named(home, e, now, MaybeChars(metadata)), codec).value)
               == GivenRow(home, e, now, id, metadata)
       <==> Fits(db, t, home, e, now, MaybeChars(metadata), codec)
  {
    var r := Named(home, e, now, MaybeChars(metadata));
    NamedCells(home, e, now, MaybeChars(metadata));
    NamedIsKept(db, t, home, e, now, MaybeChars(metadata), codec);
    NamedRow(home, e, now, id, metadata);
    if StoredRecord(db, t, r, codec).Some? && !Fits(db, t, home, e, now, MaybeChars(metadata), codec) {
      var c: Column :| HasColumn(home, c) && !FitsColumn(db, t, c, e, now, MaybeChars(metadata), codec);
      CutShort(db, t, c, e, now, MaybeChars(metadata), codec);
      StoredAt(db, t, r, RequestId, codec);
    }
  }

  /** Exactly which events insert_event stores as given: the internal ones, on a PostgreSQL
      database that has their table, if their values fit it. */
  lemma DirectKeepsInternal(db: Database, e: Event, now: int, id: nat, codec: Codec)
    ensures DirectKept(db, e, now, id, codec)
            == Some((Home(e, false), GivenRow(Home(e, false), e, now, id, Some(codec.dumps(e.metadata)))))
       <==> InternalEvent(e, false) && db.Postgres? && db.internalExists
            && Fits(db, Internal, Internal, e, now, Chars(codec.dumps(e.metadata)), codec)
  {
    if InternalEvent(e, false) {
      InternalStatement(e, now, codec);
      KeptRow(db, Internal, Internal, e, now, id, Some(codec.dumps(e.metadata)), codec);
    } else {
      ExternalIsNeverStored(db, e, now, id, codec);
    }
  }

  // ------------------------------------------------------------------
  // ConsentDBService.insert_event: the row by column name
  // ------------------------------------------------------------------

  /** The metadata is left out when there is none. */
  function ServiceMetadata(e: Event, codec: Codec): Option<string> {
    if e.metadata == map[] then None else Some(codec.dumps(e.metadata))
  }

  /** Where the row goes: without the table of internal events PostgreSQL reports it missing and
      the service falls back to consent_audit. */
  function Target(db: Database, e: Event): Table {
    if InternalEvent(e, true) && (db.OfflineSqlite? || db.internalExists) then Internal else Audit
  }

  /** The default consent_audit gives to metadata that is left out. */
  function DefaultMetadata(db: Database, t: Table, metadata: Option<string>): Option<string> {
    if metadata.None? && t.Audit? && db.Postgres? then db.metadataDefault else metadata
  }

  /** A row with the default of its metadata, if it has none. */
  function Defaulted(db: Database, t: Table, row: Row): Row {
    row.(metadata := DefaultMetadata(db, t, row.metadata))
  }

  /** The row as the service means it: each value under its own column. */
  function ServiceRecord(e: Event, now: int, codec: Codec): Record {
    Named(Home(e, true), e, now, MaybeChars(ServiceMetadata(e, codec)))
  }

  function ServiceKept(db: Database, e: Event, now: int, id: nat, codec: Codec): Option<(Table, Row)> {
    var t := Target(db, e);
    match StoredRecord(db, t, ServiceRecord(e, now, codec), codec)
    case None => None
    case Some(record) =>
      Some((t, Defaulted(db, t, AsRow(id, record))))
  }

  /** {k: v for k, v in data.items() if v is not None} */
  function WithoutNulls(r: Record): Record {
    map c | c in r && !r[c].Null? :: r[c]
  }

  lemma NullsMakeNoDifference(db: Database, t: Table, r: Record, id: nat, codec: Codec)
    ensures StoredRecord(db, t, WithoutNulls(r), codec).Some? <==> StoredRecord(db, t, r, codec).Some?
    ensures StoredRecord(db, t, r, codec).Some? ==>
              AsRow(id, StoredRecord(db, t, WithoutNulls(r), codec).value) == AsRow(id, StoredRecord(db, t, r, codec).value)
  {
    var less := WithoutNulls(r);
    forall c ensures c in less <==> c in r && !r[c].Null? {
    }
    if StoredRecord(db, t, r, codec).Some? {
      var a, b := StoredRecord(db, t, less, codec).value, StoredRecord(db, t, r, codec).value;
      forall c ensures CellAt(a, c) == CellAt(b, c) {
      }
    }
  }

  /** Exactly which events the service stores as given: all whose values fit the table they go to. */
  lemma ServiceKeeps(db: Database, e: Event, now: int, id: nat, codec: Codec)
    ensures ServiceKept(db, e, now, id, codec)
            == Some((Target(db, e), GivenRow(Home(e, true), e, now, id,
                                             DefaultMetadata(db, Target(db, e), ServiceMetadata(e, codec)))))
       <==> Fits(db, Target(db, e), Home(e, true), e, now, MaybeChars(ServiceMetadata(e, codec)), codec)
  {
    var home, t, metadata := Home(e, true), Target(db, e), ServiceMetadata(e, codec);
    var r := Named(home, e, now, MaybeChars(metadata));
    KeptRow(db, t, home, e, now, id, metadata, codec);
    if StoredRecord(db, t, r, codec).Some? { MetadataKept(db, t, home, e, now, id, metadata, codec); }
  }

  lemma StoredAt(db: Database, t: Table, r: Record, c: Column, codec: Codec)
    requires StoredRecord(db, t, r, codec).Some? && c in r
    ensures c in StoredRecord(db, t, r, codec).value
    ensures Some(StoredRecord(db, t, r, codec).value[c]) == Stored(db, t, c, r[c], codec)
  {
  }

  lemma CharsKept(db: Database, t: Table, r: Record, id: nat, codec: Codec)
    requires StoredRecord(db, t, r, codec).Some? && Metadata in r && !r[Metadata].Int?
    ensures AsRow(id, StoredRecord(db, t, r, codec).value).metadata
         == if r[Metadata].Chars? then Some(r[Metadata].s) else None
  {
    StoredAt(db, t, r, Metadata, codec);
  }

  lemma MetadataKept(db: Database, t: Table, home: Table, e: Event, now: int, id: nat, metadata: Option<string>, codec: Codec)
    requires StoredRecord(db, t, Named(home, e, now, MaybeChars(metadata)), codec).Some?
    ensures AsRow(id, StoredRecord(db, t, Named(home, e, now, MaybeChars(metadata)), codec).value).metadata == metadata
  {
    NamedCells(home, e, now, MaybeChars(metadata));
    CharsKept(db, t, Named(home, e, now, MaybeChars(metadata)), id, codec);
  }

  lemma TrimmedWord(s: string)
    requires s != "" && !IsSpace(s[0]) && !IsSpace(s[|s| - 1])
    ensures Strip(s) == s
  {
    StripTrimmed(s);
  }

  /** A developer's request with a poll timeout, as external agents make them. */
  function DeveloperRequest(timeout: int): Event {
    Event("user", "dev", "attr.financial.*", "REQUESTED", "", Some("req"), None, None, Some(timeout), map[])
  }

  lemma DeveloperIsExternal(timeout: int, service: bool)
    ensures !InternalEvent(DeveloperRequest(timeout), service)
  {
    TrimmedWord("dev");
    TrimmedWord("REQUESTED");
    TrimmedWord("attr.financial.*");
    assert |Upper("REQUESTED")| == 9 && |Lower("dev")| == 3 && |Lower("attr.financial.*")| == 16;
    assert Lower("dev")[0] == 'd' && "kai"[0] == 'k';
    assert Upper("REQUESTED")[1] == 'E' && |"OPERATION_PERFORMED"| == 19;
    assert |"vault.owner"| == 11 && |"agent_kai"| == 9 && |"self"| == 4;
    assert |"NOTIFICATION_SENT"| == 17 && |"REMINDER_SENT"| == 13 && |"NOTIFICATION_OPENED"| == 19;
  }

  lemma TokenIsClean(now: int)
    ensures '\0' !in "evt_" + IntText(now)
  {
    IntTextChars(now);
    forall i | 0 <= i < |"evt_" + IntText(now)| ensures ("evt_" + IntText(now))[i] != '\0' {
      if i >= 4 { assert ("evt_" + IntText(now))[i] == IntText(now)[i - 4]; }
    }
  }

  lemma DeveloperColumnFits(db: Database, c: Column, timeout: int, now: int, codec: Codec)
    requires InInt64(now) && InInt64(timeout)
    ensures FitsColumn(db, Audit, c, DeveloperRequest(timeout), now, Null, codec)
  {
    if c.TokenId? { TokenIsClean(now); }
  }

  lemma DeveloperFits(db: Database, timeout: int, now: int, codec: Codec)
    requires InInt64(now) && InInt64(timeout)
    ensures Fits(db, Audit, Audit, DeveloperRequest(timeout), now, Null, codec)
  {
    forall c: Column ensures FitsColumn(db, Audit, c, DeveloperRequest(timeout), now, Null, codec) {
      DeveloperColumnFits(db, c, timeout, now, codec);
    }
  }

  /** insert_event refuses that request on PostgreSQL, where the service stores it. */
  lemma DeveloperRequestIsRefused(db: Database, timeout: int, now: int, id: nat, codec: Codec)
    requires db.Postgres? && InInt64(now) && InInt64(timeout)
    ensures DirectReturns(db, DeveloperRequest(timeout), now, id, codec) == None
    ensures DirectKept(db, DeveloperRequest(timeout), now, id, codec) == None
    ensures ServiceKept(db, DeveloperRequest(timeout), now, id, codec)
         == Some((Audit, GivenRow(Audit, DeveloperRequest(timeout), now, id, db.metadataDefault)))
  {
    DeveloperIsExternal(timeout, false);
    ExternalIsNeverStored(db, DeveloperRequest(timeout), now, id, codec);
    DeveloperIsExternal(timeout, true);
    DeveloperFits(db, timeout, now, codec);
    ServiceKeeps(db, DeveloperRequest(timeout), now, id, codec);
  }

  // ------------------------------------------------------------------
  // The tables
  // ------------------------------------------------------------------

  /** consent_audit and internal_access_events. */
  datatype Tables = Tables(audit: seq<Row>, internal: seq<Row>)

  function Applied(tables: Tables, kept: Option<(Table, Row)>): Tables {
    match kept
    case None => tables
    case Some((Audit, row)) => tables.(audit := tables.audit + [row])
    case Some((Internal, row)) => tables.(internal := tables.internal + [row])
  }

  /** The metadata of log_operation: `metadata` may overwrite the two keys before it. */
  function OperationMetadata(operation: string, target: Option<string>, metadata: map<string, J.Json>)
    : map<string, J.Json>
  {
    map["operation" := J.Str(operation)]
    + (if target.Some? && target.value != "" then map["target" := J.Str(target.value)] else map[])
    + metadata
  }

  /** The event log_operation inserts. */
  function OperationEvent(userId: string, operation: string, target: Option<string>, metadata: map<string, J.Json>): Event {
    Event(userId, "self", "vault.owner", "OPERATION_PERFORMED", "", None, Some(operation), None, None,
          OperationMetadata(operation, target, metadata))
  }

  lemma OperationIsInternal()
    ensures IsInternal("self", "OPERATION_PERFORMED", "vault.owner")
  {
    TrimmedWord("self");
    assert Lower("self") == "self";
  }

  // ------------------------------------------------------------------
  // The store
  // ------------------------------------------------------------------

  /** How an insertion by name comes back: DatabaseExecutionError is one of the last two. */
  datatype Response = Inserted(id: nat) | MissingTable | Refused

  predicate TableIsMissing(db: Database, t: Table) {
    db.Postgres? && t.Internal? && !db.internalExists
  }

  /** The defaults of the columns that are not named: only metadata of consent_audit has one. */
  function WithDefaults(db: Database, t: Table, data: Record, row: Row): Row {
    if Metadata !in data && t.Audit? && db.Postgres? then row.(metadata := db.metadataDefault) else row
  }

  lemma IsNamed(data: Record, home: Table, e: Event, now: int, metadata: Cell)
    requires forall c :: c in data <==> HasColumn(home, c)
    requires forall c :: c in data ==> data[c] == ValueFor(c, e, now, metadata)
    ensures data == Named(home, e, now, metadata)
  {
    NamedCells(home, e, now, metadata);
  }

  lemma AuditDataAt(e: Event, now: int, metadata: Cell, data: Record, c: Column)
    requires data == map[
      TokenId := Chars(TokenOf(e, now)), UserId := Chars(e.userId), AgentId := Chars(e.agentId),
      Scope := Chars(e.scope), Action := Chars(e.action), RequestId := MaybeChars(e.requestId),
      ScopeDescription := MaybeChars(e.scopeDescription), IssuedAt := Int(now), ExpiresAt := MaybeInt(e.expiresAt),
      PollTimeoutAt := MaybeInt(e.pollTimeoutAt), Metadata := metadata]
    ensures c in data <==> HasColumn(Audit, c)
    ensures c in data ==> data[c] == ValueFor(c, e, now, metadata)
  {
  }

  /** The data named by insert_event is the row as it is meant. */
  lemma AuditData(e: Event, now: int, data: Record, codec: Codec)
    requires !InternalEvent(e, true)
    requires data == map[
      TokenId := Chars(TokenOf(e, now)), UserId := Chars(e.userId), AgentId := Chars(e.agentId),
      Scope := Chars(e.scope), Action := Chars(e.action), RequestId := MaybeChars(e.requestId),
      ScopeDescription := MaybeChars(e.scopeDescription), IssuedAt := Int(now), ExpiresAt := MaybeInt(e.expiresAt),
      PollTimeoutAt := MaybeInt(e.pollTimeoutAt), Metadata := MaybeChars(ServiceMetadata(e, codec))]
    ensures data == ServiceRecord(e, now, codec)
  {
    var metadata := MaybeChars(ServiceMetadata(e, codec));
    forall c ensures (c in data <==> HasColumn(Audit, c)) && (c in data ==> data[c] == ValueFor(c, e, now, metadata)) {
      AuditDataAt(e, now, metadata, data, c);
    }
    IsNamed(data, Audit, e, now, metadata);
  }

  lemma InternalDataAt(e: Event, now: int, metadata: Cell, data: Record, c: Column)
    requires data == map[
      TokenId := Chars(TokenOf(e, now)), UserId := Chars(e.userId), AgentId := Chars(e.agentId),
      Scope := Chars(e.scope), Action := Chars(e.action), RequestId := MaybeChars(e.requestId),
      ScopeDescription := MaybeChars(e.scopeDescription), IssuedAt := Int(now), ExpiresAt := MaybeInt(e.expiresAt),
      Metadata := metadata]
    ensures c in data <==> HasColumn(Internal, c)
    ensures c in data ==> data[c] == ValueFor(c, e, now, metadata)
  {
  }

  /** So is that of insert_internal_event. */
  lemma InternalData(e: Event, now: int, data: Record, codec: Codec)
    requires InternalEvent(e, true)
    requires data == map[
      TokenId := Chars(TokenOf(e, now)), UserId := Chars(e.userId), AgentId := Chars(e.agentId),
      Scope := Chars(e.scope), Action := Chars(e.action), RequestId := MaybeChars(e.requestId),
      ScopeDescription := MaybeChars(e.scopeDescription), IssuedAt := Int(now), ExpiresAt := MaybeInt(e.expiresAt),
      Metadata := MaybeChars(ServiceMetadata(e, codec))]
    ensures data == ServiceRecord(e, now, codec)
  {
    var metadata := MaybeChars(ServiceMetadata(e, codec));
    forall c ensures (c in data <==> HasColumn(Internal, c)) && (c in data ==> data[c] == ValueFor(c, e, now, metadata)) {
      InternalDataAt(e, now, metadata, data, c);
    }
    IsNamed(data, Internal, e, now, metadata);
  }

  /** Leaving the nulls out lets exactly the defaults in. */
  lemma NullsLetDefaultsIn(db: Database, t: Table, r: Record, id: nat, codec: Codec)
    requires Metadata in r && !r[Metadata].Int? && StoredRecord(db, t, r, codec).Some?
    requires StoredRecord(db, t, WithoutNulls(r), codec).Some?
    ensures WithDefaults(db, t, WithoutNulls(r), AsRow(id, StoredRecord(db, t, WithoutNulls(r), codec).value))
         == Defaulted(db, t, AsRow(id, StoredRecord(db, t, r, codec).value))
  {
    NullsMakeNoDifference(db, t, r, id, codec);
    CharsKept(db, t, r, id, codec);
    SameDefaults(db, t, r, AsRow(id, StoredRecord(db, t, r, codec).value));
  }

  lemma SameDefaults(db: Database, t: Table, r: Record, row: Row)
    requires Metadata in r && (row.metadata.None? <==> r[Metadata].Null?)
    ensures WithDefaults(db, t, WithoutNulls(r), row) == Defaulted(db, t, row)
  {
  }

  /** An insertion by name into the right table keeps what the service means to. */
  lemma SentIsKept(db: Database, t: Table, e: Event, now: int, id: nat, r: Record, sent: Record, codec: Codec)
    requires r == ServiceRecord(e, now, codec) && sent == WithoutNulls(r) && t == Target(db, e)
    ensures ServiceKept(db, e, now, id, codec)
         == (match StoredRecord(db, t, sent, codec)
             case None => None
             case Some(record) => Some((t, WithDefaults(db, t, sent, AsRow(id, record)))))
  {
    NullsMakeNoDifference(db, t, r, id, codec);
    NamedCells(Home(e, true), e, now, MaybeChars(ServiceMetadata(e, codec)));
    if StoredRecord(db, t, r, codec).Some? { NullsLetDefaultsIn(db, t, r, id, codec); }
  }

  class ConsentStore {
    const db: Database
    var tables: Tables

    constructor (db: Database)
      ensures this.db == db && tables == Tables([], [])
    {
      this.db, tables := db, Tables([], []);
    }

    /** One INSERT with its columns and parameters in order; None when it raises. */
    method Execute(t: Table, columns: seq<Column>, params: seq<Cell>, id: nat, codec: Codec) returns (returned: Option<nat>)
      requires |columns| == |params| && Distinct(columns)
      modifies this`tables
      ensures var stored := StoredRecord(db, t, Bound(columns, params), codec);
              var missing := db.Postgres? && t.Internal? && !db.internalExists;
              && returned == (if missing || stored.None? then None else Some(id))
              && tables == (if missing || stored.None? || db.OfflineSqlite? then old(tables)
                            else Applied(old(tables), Some((t, AsRow(id, stored.value)))))
    {
      if db.Postgres? && t.Internal? && !db.internalExists { return None; }
      var stored := StoredRecord(db, t, Bound(columns, params), codec);
      if stored.None? { return None; }
      if db.Postgres? {
        var row := AsRow(id, stored.value);
        if t.Audit? {
          tables := tables.(audit := tables.audit + [row]);
        } else {
          tables := tables.(internal := tables.internal + [row]);
        }
      }
      return Some(id);
    }

    /** insert_event at time `now`; `id` is the identifier the database would give the row. */
    method InsertEvent(e: Event, now: int, id: nat, codec: Codec) returns (returned: Option<nat>)
      modifies this`tables
      ensures tables == Applied(old(tables), DirectKept(db, e, now, id, codec))
      ensures returned == DirectReturns(db, e, now, id, codec)
    {
      var tokenId := if e.tokenId == "" then "evt_" + IntText(now) else e.tokenId;
      var t := if IsInternal(e.agentId, e.action, e.scope) then Internal else Audit;
      var metadata := codec.dumps(e.metadata);
      var columns := StatementColumns(t);
      var params := [Chars(tokenId), Chars(e.userId), Chars(e.agentId), Chars(e.scope), Chars(e.action),
                     MaybeChars(e.requestId), MaybeChars(e.scopeDescription), Int(now), MaybeInt(e.expiresAt),
                     Chars(metadata)];
      if t.Audit? {
        params := [Chars(tokenId), Chars(e.userId), Chars(e.agentId), Chars(e.scope), Chars(e.action),
                   MaybeChars(e.requestId), MaybeChars(e.scopeDescription), Int(now), MaybeInt(e.expiresAt),
                   MaybeInt(e.pollTimeoutAt), Chars(metadata)];
      }
      StatementMeaning(t, e, now, codec);
      assert params == StatementParams(t, e, now, codec);
      returned := Execute(t, columns, params, id, codec);
    }

    /** log_operation: an event of the user's own agent. It never reaches consent_audit. */
    method LogOperation(userId: string, operation: string, target: Option<string>, metadata: map<string, J.Json>,
                        now: int, id: nat, codec: Codec) returns (returned: Option<nat>)
      modifies this`tables
      ensures tables == Applied(old(tables), DirectKept(db, OperationEvent(userId, operation, target, metadata), now, id, codec))
      ensures returned == DirectReturns(db, OperationEvent(userId, operation, target, metadata), now, id, codec)
      ensures tables.audit == old(tables).audit
    {
      OperationIsInternal();
      returned := InsertEvent(OperationEvent(userId, operation, target, metadata), now, id, codec);
    }

    /** supabase.table(t).insert(data).execute(), committed on either database: one INSERT of the
        columns that are named, where a column that is not takes its default. */
    method InsertNamed(t: Table, data: Record, id: nat, codec: Codec) returns (response: Response)
      modifies this`tables
      ensures var stored := StoredRecord(db, t, data, codec);
              && (response == MissingTable <==> TableIsMissing(db, t))
              && (response == Refused <==> !TableIsMissing(db, t) && stored.None?)
              && (response.Inserted? ==> response.id == id)
              && tables == (if response.Inserted? then
                              Applied(old(tables), Some((t, WithDefaults(db, t, data, AsRow(id, stored.value)))))
                            else old(tables))
    {
      if TableIsMissing(db, t) { return MissingTable; }
      var stored := StoredRecord(db, t, data, codec);
      if stored.None? { return Refused; }
      var row := WithDefaults(db, t, data, AsRow(id, stored.value));
      if t.Audit? {
        tables := tables.(audit := tables.audit + [row]);
      } else {
        tables := tables.(internal := tables.internal + [row]);
      }
      return Inserted(id);
    }

    /** ConsentDBService.insert_event; None when it raises. */
    method ServiceInsert(e: Event, now: int, id: nat, codec: Codec) returns (returned: Option<nat>)
      modifies this`tables
      ensures tables == Applied(old(tables), ServiceKept(db, e, now, id, codec))
      ensures returned == if ServiceKept(db, e, now, id, codec).Some? then Some(id) else None
    {
      if IsServiceInternal(e.agentId, e.action, e.scope) {
        returned := InsertInternal(e, now, id, codec);
        return;
      }
      var tokenId := if e.tokenId == "" then "evt_" + IntText(now) else e.tokenId;
      var metadata := if e.metadata != map[] then Chars(codec.dumps(e.metadata)) else Null;
      var data: Record := map[
        TokenId := Chars(tokenId), UserId := Chars(e.userId), AgentId := Chars(e.agentId), Scope := Chars(e.scope),
        Action := Chars(e.action), RequestId := MaybeChars(e.requestId),
        ScopeDescription := MaybeChars(e.scopeDescription), IssuedAt := Int(now), ExpiresAt := MaybeInt(e.expiresAt),
        PollTimeoutAt := MaybeInt(e.pollTimeoutAt), Metadata := metadata];
      AuditData(e, now, data, codec);
      var sent := map c | c in data && !data[c].Null? :: data[c];
      SentIsKept(db, Audit, e, now, id, data, sent, codec);
      var response := InsertNamed(Audit, sent, id, codec);
      returned := if response.Inserted? then Some(response.id) else None;
    }

    /** insert_internal_event: tries the internal ledger, and sends the same data to consent_audit
        if that table turns out to be missing. */
    method InsertInternal(e: Event, now: int, id: nat, codec: Codec) returns (returned: Option<nat>)
      requires InternalEvent(e, true)
      modifies this`tables
      ensures tables == Applied(old(tables), ServiceKept(db, e, now, id, codec))
      ensures returned == if ServiceKept(db, e, now, id, codec).Some? then Some(id) else None
    {
      var tokenId := if e.tokenId == "" then "evt_" + IntText(now) else e.tokenId;
      var metadata := if e.metadata != map[] then Chars(codec.dumps(e.metadata)) else Null;
      var data: Record := map[
        TokenId := Chars(tokenId), UserId := Chars(e.userId), AgentId := Chars(e.agentId), Scope := Chars(e.scope),
        Action := Chars(e.action), RequestId := MaybeChars(e.requestId),
        ScopeDescription := MaybeChars(e.scopeDescription), IssuedAt := Int(now), ExpiresAt := MaybeInt(e.expiresAt),
        Metadata := metadata];
      InternalData(e, now, data, codec);
      var sent := map c | c in data && !data[c].Null? :: data[c];
      SentIsKept(db, Target(db, e), e, now, id, data, sent, codec);
      var response := InsertNamed(Internal, sent, id, codec);
      if response == MissingTable {
        response := InsertNamed(Audit, sent, id, codec);
      }
      returned := if response.Inserted? then Some(response.id) else None;
    }
  }

  // ------------------------------------------------------------------
  // Runs of insertions
  // ------------------------------------------------------------------

  /** An insertion through the service or through insert_event. */
  datatype Arrival = Arrival(db: Database, event: Event, at: int, id: nat, service: bool)

  function KeptOf(a: Arrival, codec: Codec): Option<(Table, Row)> {
    if a.service then ServiceKept(a.db, a.event, a.at, a.id, codec) else DirectKept(a.db, a.event, a.at, a.id, codec)
  }

  type Outcome = Option<(Table, Row)>

  function Outcomes(arrivals: seq<Arrival>, codec: Codec): (outcomes: seq<Outcome>)
    ensures |outcomes| == |arrivals| && forall i :: 0 <= i < |arrivals| ==> outcomes[i] == KeptOf(arrivals[i], codec)
  {
    seq(|arrivals|, i requires 0 <= i < |arrivals| => KeptOf(arrivals[i], codec))
  }

  function ApplyAll(outcomes: seq<Outcome>): Tables {
    if outcomes == [] then Tables([], [])
    else Applied(ApplyAll(outcomes[..|outcomes| - 1]), outcomes[|outcomes| - 1])
  }

  /** The tables after a run of insertions into empty ones. */
  function InsertAll(arrivals: seq<Arrival>, codec: Codec): Tables {
    ApplyAll(Outcomes(arrivals, codec))
  }

  /** The row meant for an arrival. */
  function MeantFor(a: Arrival, codec: Codec): Row {
    var home := Home(a.event, a.service);
    GivenRow(home, a.event, a.at, a.id,
             if a.service then DefaultMetadata(a.db, home, ServiceMetadata(a.event, codec))
             else Some(codec.dumps(a.event.metadata)))
  }

  /** Kept in the table of its kind, as given. */
  predicate KeptAsMeant(a: Arrival, codec: Codec) {
    KeptOf(a, codec) == Some((Home(a.event, a.service), MeantFor(a, codec)))
  }

  /** Which insertions do what they are meant to. */
  lemma KeptAsMeantMeaning(a: Arrival, codec: Codec)
    ensures KeptAsMeant(a, codec)
       <==> if a.service then
              (InternalEvent(a.event, true) && a.db.Postgres? ==> a.db.internalExists)
              && Fits(a.db, Home(a.event, true), Home(a.event, true), a.event, a.at,
                      MaybeChars(ServiceMetadata(a.event, codec)), codec)
            else
              InternalEvent(a.event, false) && a.db.Postgres? && a.db.internalExists
              && Fits(a.db, Internal, Internal, a.event, a.at, Chars(codec.dumps(a.event.metadata)), codec)
  {
    if a.service {
      ServiceKeeps(a.db, a.event, a.at, a.id, codec);
    } else {
      DirectKeepsInternal(a.db, a.event, a.at, a.id, codec);
    }
  }

  /** The events of the service's own work: an operation, an event of one of its agents, one of the
      vault owner without an agent or by the system, and for the service also its notifications. */
  ghost predicate OwnWork(e: Event, service: bool) {
    var agent := Lower(Strip(e.agentId));
    var action := Upper(Strip(e.action));
    || action == "OPERATION_PERFORMED"
    || agent == "self" || agent == "agent_kai" || agent == "kai"
    || ((agent == "" || agent == "system") && Lower(Strip(e.scope)) == "vault.owner")
    || (service && (action == "NOTIFICATION_SENT" || action == "REMINDER_SENT" || action == "NOTIFICATION_OPENED"))
  }

  lemma OwnWorkIsInternal(e: Event, service: bool)
    ensures InternalEvent(e, service) <==> OwnWork(e, service)
  {
  }

  /** What the table of an event that is kept as meant says of it, column by column. */
  lemma KeptRowSays(a: Arrival, codec: Codec)
    requires KeptAsMeant(a, codec)
    ensures var (t, row) := KeptOf(a, codec).value;
            var e := a.event;
            && (t == Internal <==> OwnWork(e, a.service))
            && row.id == a.id && row.issuedAt == a.at
            && row.tokenId == (if e.tokenId == "" then "evt_" + IntText(a.at) else e.tokenId)
            && row.userId == e.userId && row.agentId == e.agentId && row.scope == e.scope && row.action == e.action
            && row.requestId == e.requestId && row.scopeDescription == e.scopeDescription && row.expiresAt == e.expiresAt
            && row.pollTimeoutAt == (if t == Internal then None else e.pollTimeoutAt)
            && (!a.service || e.metadata != map[] ==> row.metadata == Some(codec.dumps(e.metadata)))
            && (a.service && e.metadata == map[] ==>
                  row.metadata == if t == Audit && a.db.Postgres? then a.db.metadataDefault else None)
  {
    OwnWorkIsInternal(a.event, a.service);
  }

  /** The metadata of an operation: what was given, and under two keys that were not the operation
      and the target, if there is one. */
  ghost predicate StatesOperation(m: map<string, J.Json>, operation: string, target: Option<string>, given: map<string, J.Json>) {
    && (forall k :: k in given ==> k in m && m[k] == given[k])
    && (forall k :: k in m ==> k in given || k == "operation" || k == "target")
    && ("operation" !in given ==> "operation" in m && m["operation"] == J.Str(operation))
    && ("target" !in given ==> ("target" in m <==> target.Some? && target.value != ""))
    && ("target" !in given && "target" in m ==> m["target"] == J.Str(target.value))
  }

  lemma OperationIsStated(operation: string, target: Option<string>, given: map<string, J.Json>)
    ensures StatesOperation(OperationMetadata(operation, target, given), operation, target, given)
  {
  }

  /** What the table of internal events says of an operation that is kept as meant. */
  lemma OperationRowSays(db: Database, userId: string, operation: string, target: Option<string>,
                         given: map<string, J.Json>, now: int, id: nat, codec: Codec)
    requires KeptAsMeant(Arrival(db, OperationEvent(userId, operation, target, given), now, id, false), codec)
    ensures var (t, row) := DirectKept(db, OperationEvent(userId, operation, target, given), now, id, codec).value;
            && t == Internal
            && row.userId == userId && row.agentId == "self" && row.scope == "vault.owner" && row.action == "OPERATION_PERFORMED"
            && row.tokenId == "evt_" + IntText(now) && row.scopeDescription == Some(operation) && row.issuedAt == now
            && row.requestId == None && row.expiresAt == None && row.pollTimeoutAt == None
            && exists m :: row.metadata == Some(codec.dumps(m)) && StatesOperation(m, operation, target, given)
  {
    var a := Arrival(db, OperationEvent(userId, operation, target, given), now, id, false);
    OperationIsInternal();
    OperationIsStated(operation, target, given);
    KeptRowSays(a, codec);
  }

  /** The rows that one table keeps, in order. */
  function KeptIn(outcomes: seq<Outcome>, t: Table): seq<Row> {
    if outcomes == [] then []
    else
      var last := outcomes[|outcomes| - 1];
      KeptIn(outcomes[..|outcomes| - 1], t) + (if last.Some? && last.value.0 == t then [last.value.1] else [])
  }

  lemma {:induction false} ApplyAllMeaning(outcomes: seq<Outcome>)
    ensures ApplyAll(outcomes) == Tables(KeptIn(outcomes, Audit), KeptIn(outcomes, Internal))
  {
    if outcomes != [] { ApplyAllMeaning(outcomes[..|outcomes| - 1]); }
  }

  /** The rows meant for the arrivals of one kind, in order. */
  function MeantIn(arrivals: seq<Arrival>, t: Table, codec: Codec): seq<Row> {
    if arrivals == [] then []
    else
      var last := arrivals[|arrivals| - 1];
      MeantIn(arrivals[..|arrivals| - 1], t, codec)
      + (if Home(last.event, last.service) == t then [MeantFor(last, codec)] else [])
  }

  lemma {:induction false} KeptAreMeant(arrivals: seq<Arrival>, t: Table, codec: Codec)
    requires forall i :: 0 <= i < |arrivals| ==> KeptAsMeant(arrivals[i], codec)
    ensures KeptIn(Outcomes(arrivals, codec), t) == MeantIn(arrivals, t, codec)
  {
    if arrivals != [] {
      var n := |arrivals| - 1;
      forall i | 0 <= i < n ensures KeptAsMeant(arrivals[..n][i], codec) {
        assert arrivals[..n][i] == arrivals[i];
      }
      KeptAreMeant(arrivals[..n], t, codec);
      assert Outcomes(arrivals, codec)[..n] == Outcomes(arrivals[..n], codec);
      assert KeptAsMeant(arrivals[n], codec);
    }
  }

  /** When every event is kept as meant, each is kept once, in the table of its kind, in order
      of arrival, with each value under its own column. */
  lemma TablesPartitionEvents(arrivals: seq<Arrival>, codec: Codec)
    requires forall i :: 0 <= i < |arrivals| ==> KeptAsMeant(arrivals[i], codec)
    ensures InsertAll(arrivals, codec) == Tables(MeantIn(arrivals, Audit, codec), MeantIn(arrivals, Internal, codec))
  {
    ApplyAllMeaning(Outcomes(arrivals, codec));
    KeptAreMeant(arrivals, Audit, codec);
    KeptAreMeant(arrivals, Internal, codec);
  }

  ghost predicate AllKept(outcomes: seq<Outcome>) {
    forall i :: 0 <= i < |outcomes| ==> outcomes[i].Some?
  }

  lemma {:induction false} KeptCount(outcomes: seq<Outcome>)
    ensures |KeptIn(outcomes, Audit)| + |KeptIn(outcomes, Internal)| <= |outcomes|
    ensures |KeptIn(outcomes, Audit)| + |KeptIn(outcomes, Internal)| == |outcomes| <==> AllKept(outcomes)
  {
    if outcomes != [] {
      var before, last := outcomes[..|outcomes| - 1], outcomes[|outcomes| - 1];
      KeptCount(before);
      assert AllKept(outcomes) <==> AllKept(before) && last.Some? by {
        if AllKept(outcomes) {
          forall i | 0 <= i < |before| ensures before[i].Some? { assert outcomes[i].Some?; }
        }
        if AllKept(before) && last.Some? {
          forall i | 0 <= i < |outcomes| ensures outcomes[i].Some? {
            if i < |before| { assert before[i].Some?; }
          }
        }
      }
    }
  }

  /** No event is lost exactly when no insertion is refused or left uncommitted, which happens
      to every external event that comes through insert_event. */
  lemma RowsAreCounted(arrivals: seq<Arrival>, codec: Codec)
    ensures |InsertAll(arrivals, codec).audit| + |InsertAll(arrivals, codec).internal| == |arrivals|
       <==> AllKept(Outcomes(arrivals, codec))
    ensures (exists i :: 0 <= i < |arrivals| && !arrivals[i].service && !InternalEvent(arrivals[i].event, false)) ==>
              |InsertAll(arrivals, codec).audit| + |InsertAll(arrivals, codec).internal| < |arrivals|
  {
    var outcomes := Outcomes(arrivals, codec);
    ApplyAllMeaning(outcomes);
    KeptCount(outcomes);
    if i :| 0 <= i < |arrivals| && !arrivals[i].service && !InternalEvent(arrivals[i].event, false) {
      ExternalIsNeverStored(arrivals[i].db, arrivals[i].event, arrivals[i].at, arrivals[i].id, codec);
      assert outcomes[i].None?;
    }
  }

  // ------------------------------------------------------------------
  // What reaches consent_audit
  // ------------------------------------------------------------------

  lemma {:induction false} KeptInHolds(outcomes: seq<Outcome>, t: Table, r: Row)
    ensures r in KeptIn(outcomes, t) <==> exists i :: 0 <= i < |outcomes| && outcomes[i] == Some((t, r))
  {
    if outcomes != [] {
      var n := |outcomes| - 1;
      KeptInHolds(outcomes[..n], t, r);
      if i :| 0 <= i < n && outcomes[..n][i] == Some((t, r)) { assert outcomes[i] == Some((t, r)); }
      if i :| 0 <= i < |outcomes| && outcomes[i] == Some((t, r)) {
        if i < n { assert outcomes[..n][i] == Some((t, r)); }
      }
    }
  }

  lemma TextsKept(db: Database, t: Table, r: Record, c: Column, codec: Codec)
    requires StoredRecord(db, t, r, codec).Some? && c in r && r[c].Chars?
    requires !IsBigInt(c) && !c.RequestId?
    ensures CharsAt(StoredRecord(db, t, r, codec).value, c) == Some(r[c].s)
  {
    StoredAt(db, t, r, c, codec);
  }

  lemma TimeKept(db: Database, t: Table, r: Record, codec: Codec)
    requires StoredRecord(db, t, r, codec).Some? && IssuedAt in r && r[IssuedAt].Int?
    ensures IntAt(StoredRecord(db, t, r, codec).value, IssuedAt) == Some(r[IssuedAt].n)
  {
    StoredAt(db, t, r, IssuedAt, codec);
  }

  /** The record states the event's own agent, action, scope and time. */
  ghost predicate States(r: Record, e: Event, now: int) {
    && AgentId in r && r[AgentId] == Chars(e.agentId) && Action in r && r[Action] == Chars(e.action)
    && Scope in r && r[Scope] == Chars(e.scope) && IssuedAt in r && r[IssuedAt] == Int(now)
  }

  predicate IsOwn(row: Row, e: Event, now: int) {
    row.agentId == e.agentId && row.action == e.action && row.scope == e.scope && row.issuedAt == now
  }

  lemma ServiceRecordStates(e: Event, now: int, codec: Codec)
    ensures States(ServiceRecord(e, now, codec), e, now)
  {
    NamedCells(Home(e, true), e, now, MaybeChars(ServiceMetadata(e, codec)));
  }

  lemma OwnFields(db: Database, t: Table, r: Record, e: Event, now: int, id: nat, codec: Codec)
    requires StoredRecord(db, t, r, codec).Some? && States(r, e, now)
    ensures IsOwn(AsRow(id, StoredRecord(db, t, r, codec).value), e, now)
  {
    TextsKept(db, t, r, AgentId, codec);
    TextsKept(db, t, r, Action, codec);
    TextsKept(db, t, r, Scope, codec);
    TimeKept(db, t, r, codec);
  }

  /** Whatever the service keeps, it keeps under the event's own agent, action and scope, at the
      time of arrival. */
  lemma ServiceRowIsOwn(db: Database, e: Event, now: int, id: nat, codec: Codec)
    requires ServiceKept(db, e, now, id, codec).Some?
    ensures ServiceKept(db, e, now, id, codec).value.0 == Target(db, e)
    ensures IsOwn(ServiceKept(db, e, now, id, codec).value.1, e, now)
  {
    ServiceRecordStates(e, now, codec);
    OwnFields(db, Target(db, e), ServiceRecord(e, now, codec), e, now, id, codec);
  }

  /** An internal event that ends up in consent_audit, because its own table is missing. */
  predicate FallsBack(a: Arrival, codec: Codec) {
    a.service && InternalEvent(a.event, true) && a.db.Postgres? && !a.db.internalExists && KeptOf(a, codec).Some?
  }

  lemma AuditOutcome(a: Arrival, codec: Codec)
    requires KeptOf(a, codec).Some? && KeptOf(a, codec).value.0.Audit?
    ensures a.service
    ensures var r := KeptOf(a, codec).value.1;
            r.issuedAt == a.at && (IsServiceInternal(r.agentId, r.action, r.scope) <==> FallsBack(a, codec))
  {
    if a.service {
      ServiceRowIsOwn(a.db, a.event, a.at, a.id, codec);
    } else if !InternalEvent(a.event, false) {
      ExternalIsNeverStored(a.db, a.event, a.at, a.id, codec);
    }
  }

  /** consent_audit holds an internal event exactly when the service had to fall back. */
  lemma AuditIsExternal(arrivals: seq<Arrival>, codec: Codec)
    ensures (forall r :: r in InsertAll(arrivals, codec).audit ==> !IsServiceInternal(r.agentId, r.action, r.scope))
       <==> forall i :: 0 <= i < |arrivals| ==> !FallsBack(arrivals[i], codec)
  {
    var outcomes := Outcomes(arrivals, codec);
    ApplyAllMeaning(outcomes);
    var audit := InsertAll(arrivals, codec).audit;
    if i :| 0 <= i < |arrivals| && FallsBack(arrivals[i], codec) {
      ServiceRowIsOwn(arrivals[i].db, arrivals[i].event, arrivals[i].at, arrivals[i].id, codec);
      AuditOutcome(arrivals[i], codec);
      var r := outcomes[i].value.1;
      KeptInHolds(outcomes, Audit, r);
      assert r in audit && IsServiceInternal(r.agentId, r.action, r.scope);
    } else {
      forall r | r in audit ensures !IsServiceInternal(r.agentId, r.action, r.scope) {
        KeptInHolds(outcomes, Audit, r);
        var i :| 0 <= i < |outcomes| && outcomes[i] == Some((Audit, r));
        AuditOutcome(arrivals[i], codec);
      }
    }
  }

  predicate InOrder(arrivals: seq<Arrival>) {
    forall i, j :: 0 <= i < j < |arrivals| ==> arrivals[i].at < arrivals[j].at
  }

  predicate Ordered(rows: seq<Row>) {
    forall i, j :: 0 <= i < j < |rows| ==> rows[i].issuedAt < rows[j].issuedAt
  }

  predicate Increasing(times: seq<int>) {
    forall i, j :: 0 <= i < j < |times| ==> times[i] < times[j]
  }

  lemma {:induction false} KeptInOrder(outcomes: seq<Outcome>, times: seq<int>)
    requires |outcomes| == |times| && Increasing(times)
    requires forall i :: 0 <= i < |outcomes| && outcomes[i].Some? && outcomes[i].value.0.Audit? ==>
               outcomes[i].value.1.issuedAt == times[i]
    ensures Ordered(KeptIn(outcomes, Audit))
    ensures forall i :: 0 <= i < |KeptIn(outcomes, Audit)| ==>
              times != [] && KeptIn(outcomes, Audit)[i].issuedAt <= times[|times| - 1]
  {
    if outcomes != [] {
      var n := |outcomes| - 1;
      KeptInOrder(outcomes[..n], times[..n]);
      if n > 0 { assert times[n - 1] < times[n]; }
    }
  }

  /** Arrivals in order leave consent_audit in order. */
  lemma AuditIsOrdered(arrivals: seq<Arrival>, codec: Codec)
    requires InOrder(arrivals)
    ensures Ordered(InsertAll(arrivals, codec).audit)
  {
    var outcomes := Outcomes(arrivals, codec);
    var times := seq(|arrivals|, i requires 0 <= i < |arrivals| => arrivals[i].at);
    forall i | 0 <= i < |outcomes| && outcomes[i].Some? && outcomes[i].value.0.Audit?
      ensures outcomes[i].value.1.issuedAt == times[i]
    {
      AuditOutcome(arrivals[i], codec);
    }
    KeptInOrder(outcomes, times);
    ApplyAllMeaning(outcomes);
  }
}

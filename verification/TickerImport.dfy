/** The bulk ticker import (scripts/import_tickers.py, _upsert_rows): batches, each committed or
    retried as a whole, over the merge that its INSERT ... ON CONFLICT states. */
module TickerImport {
  import opened Text

  /** A row of the tickers table; None is NULL. */
  datatype Row = Row(
    ticker: string,
    title: Option<string>,
    cik: Option<string>,
    exchange: Option<string>,
    sicCode: Option<string>,
    sicDescription: Option<string>,
    sector: Option<string>,
    industry: Option<string>,
    tags: Option<seq<string>>,
    confidence: Option<real>,
    tradable: Option<bool>,
    enrichedAt: Option<string>,
    updatedAt: Option<string>)

  type Tickers = map<string, Row>

  // ------------------------------------------------------------------
  // The row merge
  // ------------------------------------------------------------------

  function Coalesce<T>(a: Option<T>, b: Option<T>): Option<T> {
    if a.Some? then a else b
  }

  function OrZero(a: Option<real>): real {
    if a.Some? then a.value else 0.0
  }

  function Greatest(a: real, b: real): real {
    if a < b then b else a
  }

  /** ON CONFLICT (ticker) DO UPDATE SET ... on the stored row. */
  function Merge(stored: Row, excluded: Row): Row {
    Row(stored.ticker, excluded.title, excluded.cik, excluded.exchange,
        Coalesce(excluded.sicCode, stored.sicCode),
        Coalesce(excluded.sicDescription, stored.sicDescription),
        Coalesce(excluded.sector, stored.sector),
        Coalesce(excluded.industry, stored.industry),
        if excluded.tags.None? || excluded.tags.value == [] then stored.tags else excluded.tags,
        Some(Greatest(OrZero(stored.confidence), OrZero(excluded.confidence))),
        Coalesce(excluded.tradable, stored.tradable),
        Coalesce(excluded.enrichedAt, stored.enrichedAt),
        excluded.updatedAt)
  }

  /** The merge is idempotent and associative. It never lowers a confidence and never forgets a
      code, sector, industry, tag, flag or time that is known. */
  lemma MergeLaws(a: Row, b: Row, c: Row)
    ensures Merge(Merge(a, b), b) == Merge(a, b)
    ensures Merge(Merge(a, b), c) == Merge(a, Merge(b, c))
    ensures OrZero(Merge(a, b).confidence) >= OrZero(a.confidence)
    ensures OrZero(Merge(a, b).confidence) >= OrZero(b.confidence)
    ensures a.sicCode.Some? ==> Merge(a, b).sicCode.Some?
    ensures a.sicDescription.Some? ==> Merge(a, b).sicDescription.Some?
    ensures a.sector.Some? ==> Merge(a, b).sector.Some?
    ensures a.industry.Some? ==> Merge(a, b).industry.Some?
    ensures a.tags.Some? && a.tags.value != [] ==> Merge(a, b).tags.Some? && Merge(a, b).tags.value != []
    ensures a.tradable.Some? ==> Merge(a, b).tradable.Some?
    ensures a.enrichedAt.Some? ==> Merge(a, b).enrichedAt.Some?
  {
  }

  function Put(table: Tickers, row: Row): Tickers {
    table[row.ticker := if row.ticker in table then Merge(table[row.ticker], row) else row]
  }

  /** The rows merged into the table one after the other. */
  function Fold(table: Tickers, rows: seq<Row>): Tickers {
    if rows == [] then table else Put(Fold(table, rows[..|rows| - 1]), rows[|rows| - 1])
  }

  lemma {:induction false} FoldAppend(table: Tickers, a: seq<Row>, b: seq<Row>)
    ensures Fold(table, a + b) == Fold(Fold(table, a), b)
    decreases |b|
  {
    if b == [] {
      assert a + b == a;
    } else {
      assert (a + b)[..|a| + |b| - 1] == a + b[..|b| - 1];
      FoldAppend(table, a, b[..|b| - 1]);
    }
  }

  // ------------------------------------------------------------------
  // What a fold does to one ticker
  // ------------------------------------------------------------------

  function Look(table: Tickers, ticker: string): Option<Row> {
    if ticker in table then Some(table[ticker]) else None
  }

  function Combine(a: Option<Row>, b: Option<Row>): Option<Row> {
    if a.None? then b else if b.None? then a else Some(Merge(a.value, b.value))
  }

  /** All the rows of one ticker merged into one. */
  function MergedFor(rows: seq<Row>, ticker: string): Option<Row> {
    if rows == [] then None
    else
      var last := rows[|rows| - 1];
      Combine(MergedFor(rows[..|rows| - 1], ticker), if last.ticker == ticker then Some(last) else None)
  }

  lemma CombineLaws(a: Option<Row>, b: Option<Row>, c: Option<Row>)
    ensures Combine(Combine(a, b), c) == Combine(a, Combine(b, c))
    ensures b.Some? ==> b.value.confidence.Some? ==> Combine(Combine(a, b), b) == Combine(a, b)
  {
    if a.Some? && b.Some? && c.Some? { MergeLaws(a.value, b.value, c.value); }
    if a.Some? && b.Some? { MergeLaws(a.value, b.value, b.value); }
  }

  /** The fold works on each ticker by itself. */
  lemma {:induction false} FoldAt(table: Tickers, rows: seq<Row>, ticker: string)
    ensures Look(Fold(table, rows), ticker) == Combine(Look(table, ticker), MergedFor(rows, ticker))
  {
    if rows != [] {
      var before, last := rows[..|rows| - 1], rows[|rows| - 1];
      FoldAt(table, before, ticker);
      CombineLaws(Look(table, ticker), MergedFor(before, ticker), if last.ticker == ticker then Some(last) else None);
    }
  }

  predicate Rated(rows: seq<Row>) {
    forall i :: 0 <= i < |rows| ==> rows[i].confidence.Some?
  }

  lemma {:induction false} MergedIsRated(rows: seq<Row>, ticker: string)
    requires Rated(rows)
    ensures MergedFor(rows, ticker).Some? ==> MergedFor(rows, ticker).value.confidence.Some?
  {
    if rows != [] { MergedIsRated(rows[..|rows| - 1], ticker); }
  }

  /** Importing the same rows again, whether or not a ticker occurs twice among them, changes
      nothing. */
  lemma FoldTwice(table: Tickers, rows: seq<Row>)
    requires Rated(rows)
    ensures Fold(Fold(table, rows), rows) == Fold(table, rows)
  {
    var once, twice := Fold(table, rows), Fold(Fold(table, rows), rows);
    forall ticker ensures Look(twice, ticker) == Look(once, ticker) {
      FoldAt(table, rows, ticker);
      FoldAt(once, rows, ticker);
      MergedIsRated(rows, ticker);
      CombineLaws(Look(table, ticker), MergedFor(rows, ticker), None);
    }
    SameLooks(twice, once);
  }

  lemma SameLooks(a: Tickers, b: Tickers)
    requires forall ticker :: Look(a, ticker) == Look(b, ticker)
    ensures a == b
  {
    forall ticker ensures ticker in a <==> ticker in b {
      assert Look(a, ticker) == Look(b, ticker);
    }
    forall ticker | ticker in a ensures a[ticker] == b[ticker] {
      assert Look(a, ticker) == Look(b, ticker);
    }
  }

  // ------------------------------------------------------------------
  // What a fold leaves in each column
  // ------------------------------------------------------------------

  /** The k-th row is the last one of the ticker that has something in a column. */
  ghost predicate IsLastWith<T(!new)>(rows: seq<Row>, ticker: string, column: Row -> Option<T>, k: nat) {
    && k < |rows| && rows[k].ticker == ticker && column(rows[k]).Some?
    && forall l :: k < l < |rows| && rows[l].ticker == ticker ==> column(rows[l]).None?
  }

  /** A column of the ticker holds what the last row that has something there says, and what was
      stored, or nothing, if no row has. */
  ghost predicate HoldsLatest<T(!new)>(table: Tickers, rows: seq<Row>, ticker: string, column: Row -> Option<T>, value: Option<T>) {
    && (forall k: nat :: IsLastWith(rows, ticker, column, k) ==> value == column(rows[k]))
    && ((forall k :: 0 <= k < |rows| && rows[k].ticker == ticker ==> column(rows[k]).None?) ==>
          value == if ticker in table then column(table[ticker]) else None)
  }

  lemma LatestGrows<T(!new)>(table: Tickers, before: seq<Row>, last: Row, ticker: string, column: Row -> Option<T>, value: Option<T>)
    requires HoldsLatest(table, before, ticker, column, value)
    ensures HoldsLatest(table, before + [last], ticker, column,
                        if last.ticker == ticker && column(last).Some? then column(last) else value)
  {
    var rows := before + [last];
    assert forall k :: 0 <= k < |before| ==> rows[k] == before[k];
    assert rows[|before|] == last;
    if last.ticker != ticker || column(last).None? {
      forall k: nat | IsLastWith(rows, ticker, column, k) ensures value == column(rows[k]) {
        assert IsLastWith(before, ticker, column, k);
      }
    }
  }

  /** In a column where the merge takes the new value if there is one. */
  lemma {:induction false} FoldHoldsLatest<T(!new)>(table: Tickers, rows: seq<Row>, ticker: string, column: Row -> Option<T>)
    requires forall a, b :: column(Merge(a, b)) == if column(b).Some? then column(b) else column(a)
    ensures HoldsLatest(table, rows, ticker, column,
                        if ticker in Fold(table, rows) then column(Fold(table, rows)[ticker]) else None)
  {
    if rows != [] {
      var before, last := rows[..|rows| - 1], rows[|rows| - 1];
      assert rows == before + [last];
      FoldHoldsLatest(table, before, ticker, column);
      LatestGrows(table, before, last, ticker, column,
                  if ticker in Fold(table, before) then column(Fold(table, before)[ticker]) else None);
    }
  }

  /** The tags of a row, none if there are none in the list. */
  function KnownTags(r: Row): Option<seq<string>> {
    if r.tags == Some([]) then None else r.tags
  }

  /** What an import leaves in each column that may be unknown: the latest that is known. */
  lemma LatestKnownStays(table: Tickers, rows: seq<Row>, ticker: string)
    requires ticker in Fold(table, rows)
    ensures var after := Fold(table, rows)[ticker];
            && HoldsLatest(table, rows, ticker, (r: Row) => r.sicCode, after.sicCode)
            && HoldsLatest(table, rows, ticker, (r: Row) => r.sicDescription, after.sicDescription)
            && HoldsLatest(table, rows, ticker, (r: Row) => r.sector, after.sector)
            && HoldsLatest(table, rows, ticker, (r: Row) => r.industry, after.industry)
  {
    FoldHoldsLatest(table, rows, ticker, (r: Row) => r.sicCode);
    FoldHoldsLatest(table, rows, ticker, (r: Row) => r.sicDescription);
    FoldHoldsLatest(table, rows, ticker, (r: Row) => r.sector);
    FoldHoldsLatest(table, rows, ticker, (r: Row) => r.industry);
  }

  /** The same of the flag, the time of enrichment and the tags. */
  lemma LatestFlagsStay(table: Tickers, rows: seq<Row>, ticker: string)
    requires ticker in Fold(table, rows)
    ensures var after := Fold(table, rows)[ticker];
            && HoldsLatest(table, rows, ticker, (r: Row) => r.tradable, after.tradable)
            && HoldsLatest(table, rows, ticker, (r: Row) => r.enrichedAt, after.enrichedAt)
            && HoldsLatest(table, rows, ticker, KnownTags, KnownTags(after))
  {
    FoldHoldsLatest(table, rows, ticker, (r: Row) => r.tradable);
    FoldHoldsLatest(table, rows, ticker, (r: Row) => r.enrichedAt);
    FoldHoldsLatest(table, rows, ticker, KnownTags);
  }

  /** Name, CIK, exchange and time of update are those of the last row, whatever they are. */
  lemma {:induction false} LastRowNames(table: Tickers, rows: seq<Row>, k: nat)
    requires k < |rows| && forall l :: k < l < |rows| ==> rows[l].ticker != rows[k].ticker
    ensures rows[k].ticker in Fold(table, rows)
    ensures var after := Fold(table, rows)[rows[k].ticker];
            && after.title == rows[k].title && after.cik == rows[k].cik && after.exchange == rows[k].exchange
            && after.updatedAt == rows[k].updatedAt
    decreases |rows|
  {
    var n := |rows| - 1;
    if k < n { LastRowNames(table, rows[..n], k); }
  }

  /** The confidence is the greatest there was, in the table or in a row. */
  lemma {:induction false} ConfidenceIsGreatest(table: Tickers, rows: seq<Row>, ticker: string)
    requires ticker in Fold(table, rows)
    ensures var after := OrZero(Fold(table, rows)[ticker].confidence);
            && (ticker in table ==> after >= OrZero(table[ticker].confidence))
            && (forall k :: 0 <= k < |rows| && rows[k].ticker == ticker ==> after >= OrZero(rows[k].confidence))
            && ((ticker in table && after == OrZero(table[ticker].confidence))
                || exists k :: 0 <= k < |rows| && rows[k].ticker == ticker && after == OrZero(rows[k].confidence))
  {
    if rows != [] {
      var n := |rows| - 1;
      var before := Fold(table, rows[..n]);
      assert forall k :: 0 <= k < n ==> rows[..n][k] == rows[k];
      if ticker in before {
        ConfidenceIsGreatest(table, rows[..n], ticker);
      } else {
        NotBefore(table, rows[..n], ticker);
      }
    }
  }

  lemma {:induction false} NotBefore(table: Tickers, rows: seq<Row>, ticker: string)
    requires ticker !in Fold(table, rows)
    ensures ticker !in table && forall k :: 0 <= k < |rows| ==> rows[k].ticker != ticker
  {
    if rows != [] { NotBefore(table, rows[..|rows| - 1], ticker); }
  }

  /** No import lowers the confidence of a ticker, drops a ticker, or touches one it has no row for. */
  lemma {:induction false} ImportKeepsKnowledge(table: Tickers, rows: seq<Row>, ticker: string)
    requires ticker in table
    ensures ticker in Fold(table, rows)
    ensures OrZero(Fold(table, rows)[ticker].confidence) >= OrZero(table[ticker].confidence)
    ensures (forall i :: 0 <= i < |rows| ==> rows[i].ticker != ticker) ==> Fold(table, rows)[ticker] == table[ticker]
  {
    FoldAt(table, rows, ticker);
    var merged := MergedFor(rows, ticker);
    if merged.Some? { MergeLaws(table[ticker], merged.value, merged.value); }
    if forall i :: 0 <= i < |rows| ==> rows[i].ticker != ticker { NothingFor(rows, ticker); }
  }

  lemma {:induction false} NothingFor(rows: seq<Row>, ticker: string)
    requires forall i :: 0 <= i < |rows| ==> rows[i].ticker != ticker
    ensures MergedFor(rows, ticker).None?
  {
    if rows != [] { NothingFor(rows[..|rows| - 1], ticker); }
  }

  // ------------------------------------------------------------------
  // Batches and retries
  // ------------------------------------------------------------------

  /** What becomes of one attempt to execute and commit a batch. An attempt that raises may still
      have been committed, when only the acknowledgement was lost; and the rollback may raise too. */
  datatype Attempt = Commits | Raises(committed: bool) | RollbackRaises(committed: bool)

  /** PostgreSQL refuses a statement that would update one row twice. */
  predicate DistinctTickers(rows: seq<Row>) {
    forall i, j :: 0 <= i < j < |rows| ==> rows[i].ticker != rows[j].ticker
  }

  /** The attempt as it turns out for a batch the database may refuse. */
  function Actual(batch: seq<Row>, attempt: Attempt): Attempt {
    if DistinctTickers(batch) then attempt
    else if attempt.RollbackRaises? then RollbackRaises(false)
    else Raises(false)
  }

  datatype BatchResult = BatchResult(done: bool, committed: bool)

  /** The attempts at one batch, from the n-th on. */
  function Attempts(batch: seq<Row>, outcomes: nat -> Attempt, n: nat, maxRetries: int): BatchResult
    decreases maxRetries - n
  {
    match Actual(batch, outcomes(n))
    case Commits => BatchResult(true, true)
    case RollbackRaises(committed) => BatchResult(false, committed)
    case Raises(committed) =>
      if n >= maxRetries then BatchResult(false, committed)
      else
        var later := Attempts(batch, outcomes, n + 1, maxRetries);
        later.(committed := committed || later.committed)
  }

  /** A batch goes through if and only if it holds no ticker twice and its failures, all of them
      rolled back cleanly, are followed by a commit within the limit. */
  lemma {:induction false} WhenABatchGoesThrough(batch: seq<Row>, outcomes: nat -> Attempt, n: nat, maxRetries: int)
    ensures Attempts(batch, outcomes, n, maxRetries).done
       <==> DistinctTickers(batch) && CommitsWithin(outcomes, n, maxRetries)
    ensures Attempts(batch, outcomes, n, maxRetries).done ==> Attempts(batch, outcomes, n, maxRetries).committed
    decreases maxRetries - n
  {
    if n < maxRetries {
      WhenABatchGoesThrough(batch, outcomes, n + 1, maxRetries);
      CommitsLater(outcomes, n, maxRetries);
    }
    if outcomes(n).Commits? { assert CommitsAt(outcomes, n, n); }
  }

  /** The k-th attempt commits and those from the n-th to it raise and are rolled back. */
  ghost predicate CommitsAt(outcomes: nat -> Attempt, n: nat, k: nat) {
    n <= k && outcomes(k).Commits? && forall a: nat :: n <= a < k ==> outcomes(a).Raises?
  }

  ghost predicate CommitsWithin(outcomes: nat -> Attempt, n: nat, maxRetries: int) {
    exists k: nat :: (k <= n || k <= maxRetries) && CommitsAt(outcomes, n, k)
  }

  lemma CommitsLater(outcomes: nat -> Attempt, n: nat, maxRetries: int)
    requires n < maxRetries
    ensures CommitsWithin(outcomes, n, maxRetries)
       <==> outcomes(n).Commits? || (outcomes(n).Raises? && CommitsWithin(outcomes, n + 1, maxRetries))
  {
    if outcomes(n).Commits? { assert CommitsAt(outcomes, n, n); }
    if CommitsWithin(outcomes, n, maxRetries) {
      var k: nat :| (k <= n || k <= maxRetries) && CommitsAt(outcomes, n, k);
      if k > n { assert CommitsAt(outcomes, n + 1, k); }
    }
    if outcomes(n).Raises? && CommitsWithin(outcomes, n + 1, maxRetries) {
      var k: nat :| (k <= n + 1 || k <= maxRetries) && CommitsAt(outcomes, n + 1, k);
      assert CommitsAt(outcomes, n, k);
    }
  }

  function Min(a: int, b: int): int {
    if a < b then a else b
  }

  /** rows[idx : idx + batch_size] for idx in range(0, total, batch_size) */
  function Batches(rows: seq<Row>, size: nat): seq<seq<Row>>
    requires size >= 1
    decreases |rows|
  {
    if rows == [] then [] else [rows[..Min(size, |rows|)]] + Batches(rows[Min(size, |rows|)..], size)
  }

  function Flatten(batches: seq<seq<Row>>): seq<Row> {
    if batches == [] then [] else Flatten(batches[..|batches| - 1]) + batches[|batches| - 1]
  }

  lemma {:induction false} FlattenFirst(first: seq<Row>, batches: seq<seq<Row>>)
    ensures Flatten([first] + batches) == first + Flatten(batches)
    decreases |batches|
  {
    if batches == [] {
      assert Flatten([first][..0]) == [];
    } else {
      var n := |batches| - 1;
      assert ([first] + batches)[..n + 1] == [first] + batches[..n];
      FlattenFirst(first, batches[..n]);
    }
  }

  lemma {:induction false} BatchesFlatten(rows: seq<Row>, size: nat)
    requires size >= 1
    ensures Flatten(Batches(rows, size)) == rows
    decreases |rows|
  {
    if rows != [] {
      var cut := Min(size, |rows|);
      BatchesFlatten(rows[cut..], size);
      FlattenFirst(rows[..cut], Batches(rows[cut..], size));
    }
  }

  lemma {:induction false} BatchLengths(rows: seq<Row>, size: nat, b: nat)
    requires size >= 1 && b < |Batches(rows, size)|
    ensures 1 <= |Batches(rows, size)[b]| <= size
    ensures b < |Batches(rows, size)| - 1 ==> |Batches(rows, size)[b]| == size
    decreases |rows|
  {
    var rest := rows[Min(size, |rows|)..];
    assert Batches(rows, size)[1..] == Batches(rest, size);
    if b > 0 {
      assert Batches(rows, size)[b] == Batches(rest, size)[b - 1];
      BatchLengths(rest, size, b - 1);
    }
  }

  /** The batches are the rows in order, none of them empty, each but the last one full. */
  lemma BatchesCover(rows: seq<Row>, size: nat)
    requires size >= 1
    ensures Flatten(Batches(rows, size)) == rows
    ensures forall b :: 0 <= b < |Batches(rows, size)| ==>
              1 <= |Batches(rows, size)[b]| <= size && (b < |Batches(rows, size)| - 1 ==> |Batches(rows, size)[b]| == size)
  {
    BatchesFlatten(rows, size);
    forall b | 0 <= b < |Batches(rows, size)|
      ensures 1 <= |Batches(rows, size)[b]| <= size && (b < |Batches(rows, size)| - 1 ==> |Batches(rows, size)[b]| == size)
    {
      BatchLengths(rows, size, b);
    }
  }

  datatype Result = Done(count: nat) | GaveUp(batch: nat)

  class TickerTable {
    var rows: Tickers

    /** The attempts at one batch: `while True`. */
    method UpsertBatch(batch: seq<Row>, outcomes: nat -> Attempt, maxRetries: int) returns (done: bool)
      requires Rated(batch)
      modifies this
      ensures done == Attempts(batch, outcomes, 1, maxRetries).done
      ensures rows == if Attempts(batch, outcomes, 1, maxRetries).committed then Fold(old(rows), batch) else old(rows)
    {
      var attempt := 0;
      ghost var committed := false;
      FoldTwice(rows, batch);
      while true
        invariant attempt >= 0 && (attempt > 0 ==> attempt < maxRetries)
        invariant rows == if committed then Fold(old(rows), batch) else old(rows)
        invariant var rest := Attempts(batch, outcomes, attempt + 1, maxRetries);
                  var all := Attempts(batch, outcomes, 1, maxRetries);
                  all.done == rest.done && all.committed == (committed || rest.committed)
        decreases maxRetries - attempt
      {
        attempt := attempt + 1;
        match Actual(batch, outcomes(attempt)) {
          case Commits =>
            rows := Fold(rows, batch);
            return true;
          case RollbackRaises(now) =>
            if now { rows := Fold(rows, batch); }
            return false;
          case Raises(now) =>
            if now { rows := Fold(rows, batch); }
            committed := committed || now;
            if attempt >= maxRetries { return false; }
        }
      }
    }

    /** _upsert_rows. `outcomes(b)` are the outcomes of the attempts at the b-th batch. Giving up
        leaves a whole number of batches in the table. */
    method UpsertRows(data: seq<Row>, size: nat, maxRetries: int, outcomes: nat -> nat -> Attempt)
        returns (result: Result)
      requires size >= 1 && Rated(data)
      modifies this
      ensures result.Done? ==> result.count == |data| && rows == Fold(old(rows), data)
      ensures result.Done? <==> AllGoThrough(Batches(data, size), outcomes, maxRetries)
      ensures result.GaveUp? ==>
                var batches, b := Batches(data, size), result.batch;
                && b < |batches|
                && AllGoThrough(batches[..b], outcomes, maxRetries)
                && !Attempts(batches[b], outcomes(b), 1, maxRetries).done
                && rows == Fold(old(rows), Flatten(if Attempts(batches[b], outcomes(b), 1, maxRetries).committed
                                                   then batches[..b + 1] else batches[..b]))
    {
      var done, idx, b := 0, 0, 0;
      ghost var batches := Batches(data, size);
      while idx < |data|
        invariant 0 <= b && done == idx && Progress(data, size, batches, b, idx)
        invariant rows == Fold(old(rows), Flatten(batches[..b]))
        invariant AllGoThrough(batches[..b], outcomes, maxRetries)
        decreases |data| - idx
      {
        var batch := data[idx..Min(idx + size, |data|)];
        NextBatch(data, size, batches, b, idx);
        BatchFolds(old(rows), data, size, batches, b, idx);
        var ok := UpsertBatch(batch, outcomes(b), maxRetries);
        if !ok { return GaveUp(b); }
        WhenABatchGoesThrough(batch, outcomes(b), 1, maxRetries);
        OneMoreThrough(batches, b, outcomes, maxRetries);
        done := done + |batch|;
        idx := Min(idx + size, |data|);
        b := b + 1;
      }
      BatchesFlatten(data, size);
      assert batches[..b] == batches;
      return Done(done);
    }
  }

  ghost predicate AllGoThrough(batches: seq<seq<Row>>, outcomes: nat -> nat -> Attempt, maxRetries: int) {
    forall b :: 0 <= b < |batches| ==> Attempts(batches[b], outcomes(b), 1, maxRetries).done
  }

  lemma OneMoreThrough(batches: seq<seq<Row>>, b: nat, outcomes: nat -> nat -> Attempt, maxRetries: int)
    requires b < |batches| && AllGoThrough(batches[..b], outcomes, maxRetries)
    requires Attempts(batches[b], outcomes(b), 1, maxRetries).done
    ensures AllGoThrough(batches[..b + 1], outcomes, maxRetries)
  {
    forall c | 0 <= c < b + 1 ensures Attempts(batches[..b + 1][c], outcomes(c), 1, maxRetries).done {
      if c < b { assert batches[..b][c] == batches[..b + 1][c]; }
    }
  }

  /** The loop over the rows stands at row idx, at the start of batch b. */
  ghost predicate Progress(data: seq<Row>, size: nat, batches: seq<seq<Row>>, b: nat, idx: nat)
    requires size >= 1
  {
    idx <= |data| && b <= |batches| && batches[b..] == Batches(data[idx..], size)
  }

  lemma NextBatch(data: seq<Row>, size: nat, batches: seq<seq<Row>>, b: nat, idx: nat)
    requires size >= 1 && idx < |data| && Progress(data, size, batches, b, idx)
    ensures b < |batches| && batches[b] == data[idx..Min(idx + size, |data|)]
    ensures Progress(data, size, batches, b + 1, Min(idx + size, |data|))
    ensures Flatten(batches[..b + 1]) == Flatten(batches[..b]) + batches[b]
  {
    var rest := data[idx..];
    var cut := Min(size, |rest|);
    assert rest[..cut] == data[idx..Min(idx + size, |data|)] && rest[cut..] == data[Min(idx + size, |data|)..];
    assert batches[b] == batches[b..][0] && batches[b + 1..] == batches[b..][1..];
    assert batches[..b + 1][..b] == batches[..b];
  }

  lemma BatchFolds(table: Tickers, data: seq<Row>, size: nat, batches: seq<seq<Row>>, b: nat, idx: nat)
    requires size >= 1 && idx < |data| && Progress(data, size, batches, b, idx)
    ensures Fold(Fold(table, Flatten(batches[..b])), data[idx..Min(idx + size, |data|)]) == Fold(table, Flatten(batches[..b + 1]))
  {
    NextBatch(data, size, batches, b, idx);
    FoldAppend(table, Flatten(batches[..b]), batches[b]);
  }

  lemma {:induction false} BatchIsSlice(rows: seq<Row>, size: nat, b: nat) returns (lo: nat, hi: nat)
    requires size >= 1 && b < |Batches(rows, size)|
    ensures lo <= hi <= |rows| && Batches(rows, size)[b] == rows[lo..hi]
    decreases |rows|
  {
    var cut := Min(size, |rows|);
    var rest := rows[cut..];
    assert Batches(rows, size)[1..] == Batches(rest, size);
    if b == 0 {
      lo, hi := 0, cut;
    } else {
      assert Batches(rows, size)[b] == Batches(rest, size)[b - 1];
      lo, hi := BatchIsSlice(rest, size, b - 1);
      assert rest[lo..hi] == rows[cut + lo..cut + hi];
      lo, hi := cut + lo, cut + hi;
    }
  }

  /** An import of distinct tickers succeeds, for any batch size and any failures, if and only if
      every batch meets with a commit before the retries run out. */
  lemma WhenAnImportSucceeds(rows: seq<Row>, size: nat, outcomes: nat -> nat -> Attempt, maxRetries: int)
    requires size >= 1 && DistinctTickers(rows)
    ensures AllGoThrough(Batches(rows, size), outcomes, maxRetries)
       <==> forall b :: 0 <= b < |Batches(rows, size)| ==> CommitsWithin(outcomes(b), 1, maxRetries)
  {
    var batches := Batches(rows, size);
    forall b | 0 <= b < |batches|
      ensures Attempts(batches[b], outcomes(b), 1, maxRetries).done <==> CommitsWithin(outcomes(b), 1, maxRetries)
    {
      var lo, hi := BatchIsSlice(rows, size, b);
      assert DistinctTickers(batches[b]);
      WhenABatchGoesThrough(batches[b], outcomes(b), 1, maxRetries);
    }
  }
}

/** The bounded history of debates (scripts/local_kai_debate_regression.py, extract_run_id and
    upsert_history_entry): one short list per ticker, newest first, one entry per run. */
module DebateHistory {
  import opened Text
  import opened Json

  const MAX_HISTORY_PER_TICKER: nat := 3

  type Entry = map<string, Json>

  /** extract_run_id: the run id of the card, or else the id of its stream. */
  function RunId(entry: Entry, show: Json -> string): Option<string> {
    var card := Field(entry, "raw_card");
    if !card.Obj? then None
    else
      var run := Strip(TextOf(Field(card.fields, "debate_run_id"), show));
      var diagnostics := Field(card.fields, "stream_diagnostics");
      if run != "" then Some(run)
      else if !diagnostics.Obj? then None
      else
        var stream := Strip(TextOf(Field(diagnostics.fields, "stream_id"), show));
        if stream != "" then Some(stream) else None
  }

  /** The text of one of the fields an id may come from, "" where there is none. */
  function IdText(fields: Json, key: string, show: Json -> string): string {
    if fields.Obj? then Strip(TextOf(Field(fields.fields, key), show)) else ""
  }

  /** An entry has a run id exactly when its card or the card's stream names one. The id is clean,
      and a change of the stream's id makes no difference to a card that has its own. */
  lemma RunIdIsClean(entry: Entry, show: Json -> string)
    ensures RunId(entry, show).Some? ==> RunId(entry, show).value != "" && Trimmed(RunId(entry, show).value)
    ensures var card := Field(entry, "raw_card");
            var own := IdText(card, "debate_run_id", show);
            var stream := IdText(Field(DictOrEmpty(card), "stream_diagnostics"), "stream_id", show);
            && (RunId(entry, show).None? <==> own == "" && stream == "")
            && (own != "" ==> RunId(entry, show) == Some(own))
            && (own == "" && stream != "" ==> RunId(entry, show) == Some(stream))
  {
    var card := Field(entry, "raw_card");
    if card.Obj? {
      StripTrimmed(TextOf(Field(card.fields, "debate_run_id"), show));
      var diagnostics := Field(card.fields, "stream_diagnostics");
      if diagnostics.Obj? { StripTrimmed(TextOf(Field(diagnostics.fields, "stream_id"), show)); }
    }
  }

  /** str(entry.get("ticker") or "").strip().upper() */
  function TickerOf(entry: Entry, show: Json -> string, upper: string -> string): string {
    upper(Strip(TextOf(Field(entry, "ticker"), show)))
  }

  /** What the history reads off an entry. */
  datatype Keys = Keys(run: Entry -> Option<string>, ticker: Entry -> string)

  function KeysOf(show: Json -> string, upper: string -> string): Keys {
    Keys(e => RunId(e, show), e => TickerOf(e, show, upper))
  }

  predicate SameRun(a: Entry, b: Entry, keys: Keys) {
    keys.run(a).Some? && keys.run(a) == keys.run(b)
  }

  /** [existing for existing in bucket if extract_run_id(existing) != incoming_run_id] */
  function Others(bucket: seq<Entry>, entry: Entry, keys: Keys): seq<Entry> {
    if bucket == [] then []
    else (if SameRun(entry, bucket[0], keys) then [] else [bucket[0]]) + Others(bucket[1..], entry, keys)
  }

  function Cut(bucket: seq<Entry>, max: nat): (r: seq<Entry>)
    ensures |r| == (if |bucket| <= max then |bucket| else max) && r == bucket[..|r|]
  {
    if |bucket| <= max then bucket else bucket[..max]
  }

  type Buckets = map<string, seq<Entry>>

  function BucketOf(buckets: Buckets, ticker: string): seq<Entry> {
    if ticker in buckets then buckets[ticker] else []
  }

  function Upserted(buckets: Buckets, entry: Entry, max: nat, keys: Keys): Buckets {
    var ticker := keys.ticker(entry);
    buckets[ticker := Cut([entry] + Others(BucketOf(buckets, ticker), entry, keys), max)]
  }

  // ------------------------------------------------------------------
  // The number of entries
  // ------------------------------------------------------------------

  ghost function Total(buckets: Buckets): nat {
    if buckets == map[] then 0
    else
      var ticker :| ticker in buckets;
      |buckets[ticker]| + Total(buckets - {ticker})
  }

  lemma {:induction false} TotalWithout(buckets: Buckets, ticker: string)
    requires ticker in buckets
    ensures Total(buckets) == |buckets[ticker]| + Total(buckets - {ticker})
    decreases |buckets|
  {
    var first :| first in buckets && Total(buckets) == |buckets[first]| + Total(buckets - {first});
    if first != ticker {
      TotalWithout(buckets - {first}, ticker);
      TotalWithout(buckets - {ticker}, first);
      assert buckets - {first} - {ticker} == buckets - {ticker} - {first};
    }
  }

  /** sum(len(entries) for entries in history_map.values()) */
  method CountEntries(buckets: Buckets) returns (total: nat)
    ensures total == Total(buckets)
  {
    total := 0;
    var rest := buckets;
    while rest != map[]
      invariant total + Total(rest) == Total(buckets)
      decreases |rest|
    {
      var ticker :| ticker in rest;
      TotalWithout(rest, ticker);
      total := total + |rest[ticker]|;
      rest := rest - {ticker};
    }
  }

  /** The history map, updated in place. */
  class History {
    var buckets: Buckets

    constructor ()
      ensures buckets == map[]
    {
      buckets := map[];
    }

    /** upsert_history_entry: None stands for the error on an entry without a ticker. */
    method Upsert(entry: Entry, show: Json -> string, upper: string -> string) returns (total: Option<nat>)
      modifies this
      ensures total.None? <==> upper(Strip(TextOf(Field(entry, "ticker"), show))) == ""
      ensures total.None? ==> buckets == old(buckets)
      ensures total.Some? ==> buckets == Upserted(old(buckets), entry, 3, KeysOf(show, upper))
                              && total.value == Total(buckets)
    {
      var keys := KeysOf(show, upper);
      var ticker := keys.ticker(entry);
      if ticker == "" { return None; }
      var bucket := BucketOf(buckets, ticker);
      if keys.run(entry).Some? {
        bucket := FilterOut(bucket, entry, keys);
      } else {
        NoRunKeepsAll(bucket, entry, keys);
      }
      bucket := [entry] + bucket;
      buckets := buckets[ticker := Cut(bucket, MAX_HISTORY_PER_TICKER)];
      var count := CountEntries(buckets);
      return Some(count);
    }
  }

  lemma {:induction false} NoRunKeepsAll(bucket: seq<Entry>, entry: Entry, keys: Keys)
    requires keys.run(entry).None?
    ensures Others(bucket, entry, keys) == bucket
  {
    if bucket != [] { NoRunKeepsAll(bucket[1..], entry, keys); }
  }

  lemma {:induction false} OthersAppend(a: seq<Entry>, b: seq<Entry>, entry: Entry, keys: Keys)
    ensures Others(a + b, entry, keys) == Others(a, entry, keys) + Others(b, entry, keys)
  {
    if a == [] {
      assert a + b == b;
    } else {
      assert (a + b)[1..] == a[1..] + b;
      OthersAppend(a[1..], b, entry, keys);
    }
  }

  method FilterOut(bucket: seq<Entry>, entry: Entry, keys: Keys) returns (kept: seq<Entry>)
    requires keys.run(entry).Some?
    ensures kept == Others(bucket, entry, keys)
  {
    kept := [];
    var i := 0;
    while i < |bucket|
      invariant 0 <= i <= |bucket| && kept == Others(bucket[..i], entry, keys)
    {
      OthersAppend(bucket[..i], [bucket[i]], entry, keys);
      OthersOfOne(bucket[i], entry, keys);
      assert bucket[..i + 1] == bucket[..i] + [bucket[i]];
      if keys.run(bucket[i]) != keys.run(entry) { kept := kept + [bucket[i]]; }
      i := i + 1;
    }
    assert bucket[..i] == bucket;
  }

  // ------------------------------------------------------------------
  // The bounded history is exact
  // ------------------------------------------------------------------

  /** The map after a list of entries, those without a ticker refused. */
  function Run(entries: seq<Entry>, max: nat, keys: Keys): Buckets {
    if entries == [] then map[]
    else
      var before, entry := Run(entries[..|entries| - 1], max, keys), entries[|entries| - 1];
      if keys.ticker(entry) == "" then before else Upserted(before, entry, max, keys)
  }

  predicate Supersedes(later: Entry, earlier: Entry, keys: Keys) {
    keys.ticker(later) == keys.ticker(earlier) && SameRun(earlier, later, keys)
  }

  /** A later entry of the same ticker has the same run id. */
  predicate Superseded(entries: seq<Entry>, i: nat, keys: Keys)
    requires i < |entries|
  {
    exists j :: i < j < |entries| && Supersedes(entries[j], entries[i], keys)
  }

  /** The i-th entry, if it is the ticker's own and never superseded. */
  function Own(entries: seq<Entry>, ticker: string, i: nat, keys: Keys): seq<Entry>
    requires i < |entries|
  {
    if keys.ticker(entries[i]) == ticker && !Superseded(entries, i, keys) then [entries[i]] else []
  }

  /** The unbounded history of a ticker: of the first n entries those that are its own and never
      superseded, newest first. */
  function Newest(entries: seq<Entry>, ticker: string, n: nat, keys: Keys): seq<Entry>
    requires n <= |entries|
  {
    if n == 0 then [] else Own(entries, ticker, n - 1, keys) + Newest(entries, ticker, n - 1, keys)
  }

  lemma SupersededLater(entries: seq<Entry>, last: Entry, i: nat, keys: Keys)
    requires i < |entries|
    ensures Superseded(entries + [last], i, keys) <==> Superseded(entries, i, keys) || Supersedes(last, entries[i], keys)
  {
    var all := entries + [last];
    if j :| i < j < |entries| && Supersedes(entries[j], entries[i], keys) {
      assert all[j] == entries[j] && all[i] == entries[i];
    }
    if Supersedes(last, entries[i], keys) { assert all[|entries|] == last && all[i] == entries[i]; }
  }

  /** What is left of a ticker's history once one more entry has come. */
  function LeftBy(last: Entry, bucket: seq<Entry>, ticker: string, keys: Keys): seq<Entry> {
    if keys.ticker(last) == ticker then Others(bucket, last, keys) else bucket
  }

  lemma LeftByAppend(last: Entry, a: seq<Entry>, b: seq<Entry>, ticker: string, keys: Keys)
    ensures LeftBy(last, a + b, ticker, keys) == LeftBy(last, a, ticker, keys) + LeftBy(last, b, ticker, keys)
  {
    OthersAppend(a, b, last, keys);
  }

  lemma OwnAfter(entries: seq<Entry>, last: Entry, ticker: string, i: nat, keys: Keys)
    requires i < |entries|
    ensures Own(entries + [last], ticker, i, keys) == LeftBy(last, Own(entries, ticker, i, keys), ticker, keys)
  {
    SupersededLater(entries, last, i, keys);
    OthersOfOne(entries[i], last, keys);
  }

  /** One more entry supersedes exactly the earlier ones of its own ticker and run. */
  lemma {:induction false} NewestAfter(entries: seq<Entry>, last: Entry, ticker: string, m: nat, keys: Keys)
    requires m <= |entries|
    ensures Newest(entries + [last], ticker, m, keys) == LeftBy(last, Newest(entries, ticker, m, keys), ticker, keys)
  {
    if m > 0 {
      var own, rest := Own(entries, ticker, m - 1, keys), Newest(entries, ticker, m - 1, keys);
      calc {
        Newest(entries + [last], ticker, m, keys);
        Own(entries + [last], ticker, m - 1, keys) + Newest(entries + [last], ticker, m - 1, keys);
        { OwnAfter(entries, last, ticker, m - 1, keys); NewestAfter(entries, last, ticker, m - 1, keys); }
        LeftBy(last, own, ticker, keys) + LeftBy(last, rest, ticker, keys);
        { LeftByAppend(last, own, rest, ticker, keys); }
        LeftBy(last, own + rest, ticker, keys);
      }
    }
  }

  lemma OthersOfOne(e: Entry, last: Entry, keys: Keys)
    ensures Others([e], last, keys) == if SameRun(e, last, keys) then [] else [e]
  {
    assert Others([e][1..], last, keys) == [];
  }

  predicate DistinctRuns(bucket: seq<Entry>, keys: Keys) {
    forall i, j :: 0 <= i < j < |bucket| ==> !SameRun(bucket[i], bucket[j], keys)
  }

  /** At most one of several distinct runs is taken out, and cutting to n commutes with it. */
  lemma CutOthers(bucket: seq<Entry>, entry: Entry, max: nat, keys: Keys)
    requires DistinctRuns(bucket, keys)
    ensures Cut([entry] + Others(Cut(bucket, max), entry, keys), max) == Cut([entry] + Others(bucket, entry, keys), max)
  {
    if |bucket| > max {
      assert bucket == bucket[..max] + bucket[max..];
      OthersAppend(bucket[..max], bucket[max..], entry, keys);
      OthersLose(bucket[..max], entry, keys);
    }
  }

  lemma {:induction false} OthersLose(bucket: seq<Entry>, entry: Entry, keys: Keys)
    requires DistinctRuns(bucket, keys)
    ensures |bucket| - 1 <= |Others(bucket, entry, keys)| <= |bucket|
    ensures (exists i :: 0 <= i < |bucket| && SameRun(entry, bucket[i], keys)) <==> |Others(bucket, entry, keys)| != |bucket|
  {
    if bucket != [] {
      OthersLose(bucket[1..], entry, keys);
      if SameRun(entry, bucket[0], keys) {
        forall i | 0 <= i < |bucket[1..]| ensures !SameRun(entry, bucket[1..][i], keys) {
          assert !SameRun(bucket[0], bucket[i + 1], keys);
        }
      } else {
        if i :| 0 <= i < |bucket| && SameRun(entry, bucket[i], keys) { assert SameRun(entry, bucket[1..][i - 1], keys); }
      }
    }
  }

  lemma {:induction false} OthersFrom(bucket: seq<Entry>, entry: Entry, i: nat, keys: Keys) returns (k: nat)
    requires i < |Others(bucket, entry, keys)|
    ensures k < |bucket| && bucket[k] == Others(bucket, entry, keys)[i] && !SameRun(entry, bucket[k], keys)
  {
    if SameRun(entry, bucket[0], keys) {
      k := OthersFrom(bucket[1..], entry, i, keys);
      k := k + 1;
    } else if i == 0 {
      k := 0;
    } else {
      k := OthersFrom(bucket[1..], entry, i - 1, keys);
      k := k + 1;
    }
  }

  lemma {:induction false} OthersDistinct(bucket: seq<Entry>, entry: Entry, keys: Keys)
    requires DistinctRuns(bucket, keys)
    ensures DistinctRuns(Others(bucket, entry, keys), keys)
  {
    if bucket != [] {
      var rest := bucket[1..];
      forall i, j | 0 <= i < j < |rest| ensures !SameRun(rest[i], rest[j], keys) {
        assert !SameRun(bucket[i + 1], bucket[j + 1], keys);
      }
      OthersDistinct(rest, entry, keys);
      forall j | 0 <= j < |Others(rest, entry, keys)| ensures !SameRun(bucket[0], Others(rest, entry, keys)[j], keys) {
        var k := OthersFrom(rest, entry, j, keys);
        assert !SameRun(bucket[0], bucket[k + 1], keys);
      }
    }
  }

  lemma PutFirstDistinct(bucket: seq<Entry>, entry: Entry, keys: Keys)
    requires DistinctRuns(bucket, keys)
    ensures DistinctRuns([entry] + Others(bucket, entry, keys), keys)
  {
    OthersDistinct(bucket, entry, keys);
    forall j | 0 <= j < |Others(bucket, entry, keys)| ensures !SameRun(entry, Others(bucket, entry, keys)[j], keys) {
      var k := OthersFrom(bucket, entry, j, keys);
    }
  }

  lemma NewestGrows(entries: seq<Entry>, last: Entry, ticker: string, keys: Keys)
    ensures Newest(entries + [last], ticker, |entries| + 1, keys)
         == if keys.ticker(last) == ticker then [last] + Others(Newest(entries, ticker, |entries|, keys), last, keys)
            else Newest(entries, ticker, |entries|, keys)
  {
    NewestAfter(entries, last, ticker, |entries|, keys);
    assert (entries + [last])[|entries|] == last;
  }

  /** The unbounded history never holds two entries of one run. */
  lemma {:induction false} NewestDistinct(entries: seq<Entry>, ticker: string, keys: Keys)
    ensures DistinctRuns(Newest(entries, ticker, |entries|, keys), keys)
  {
    if entries != [] {
      var before, last := entries[..|entries| - 1], entries[|entries| - 1];
      assert entries == before + [last];
      NewestDistinct(before, ticker, keys);
      NewestGrows(before, last, ticker, keys);
      PutFirstDistinct(Newest(before, ticker, |before|, keys), last, keys);
    }
  }

  /** However many entries have come, and although the list was cut after each of them, the
      bucket of a ticker is exactly the beginning of its unbounded history: the newest entries,
      the latest one of each run. */
  lemma {:induction false} BucketIsExact(entries: seq<Entry>, ticker: string, max: nat, keys: Keys)
    requires ticker != ""
    ensures BucketOf(Run(entries, max, keys), ticker) == Cut(Newest(entries, ticker, |entries|, keys), max)
  {
    if entries != [] {
      var before, last := entries[..|entries| - 1], entries[|entries| - 1];
      assert entries == before + [last];
      BucketIsExact(before, ticker, max, keys);
      NewestGrows(before, last, ticker, keys);
      NewestDistinct(before, ticker, keys);
      CutOthers(Newest(before, ticker, |before|, keys), last, max, keys);
    }
  }

  lemma {:induction false} NewestAreOwn(entries: seq<Entry>, ticker: string, n: nat, i: nat, keys: Keys)
    requires n <= |entries| && i < |Newest(entries, ticker, n, keys)|
    ensures keys.ticker(Newest(entries, ticker, n, keys)[i]) == ticker
  {
    var own := Own(entries, ticker, n - 1, keys);
    if i >= |own| { NewestAreOwn(entries, ticker, n - 1, i - |own|, keys); }
  }

  /** Whatever entries have come, no bucket is longer than the bound, its entries are all of its
      own ticker, and no two of them have the same run id. */
  lemma BucketsStayBounded(entries: seq<Entry>, ticker: string, max: nat, show: Json -> string, upper: string -> string)
    requires ticker != ""
    ensures var bucket := BucketOf(Run(entries, max, KeysOf(show, upper)), ticker);
            && |bucket| <= max
            && (forall i :: 0 <= i < |bucket| ==> upper(Strip(TextOf(Field(bucket[i], "ticker"), show))) == ticker)
            && (forall i, j :: 0 <= i < j < |bucket| && RunId(bucket[i], show).Some? ==>
                  RunId(bucket[i], show) != RunId(bucket[j], show))
  {
    var keys := KeysOf(show, upper);
    var bucket := BucketOf(Run(entries, max, keys), ticker);
    BucketIsExact(entries, ticker, max, keys);
    NewestDistinct(entries, ticker, keys);
    forall i | 0 <= i < |bucket| ensures keys.ticker(bucket[i]) == ticker {
      NewestAreOwn(entries, ticker, |entries|, i, keys);
    }
    forall i, j | 0 <= i < j < |bucket| && RunId(bucket[i], show).Some? ensures RunId(bucket[i], show) != RunId(bucket[j], show) {
      assert !SameRun(bucket[i], bucket[j], keys);
    }
  }
}

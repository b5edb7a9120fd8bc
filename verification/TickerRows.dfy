/** Building the rows of the ticker import (scripts/import_tickers.py, _build_rows): the exchange
    file and the company submissions merged into one row per ticker. */
module TickerRows {
  import opened Text
  import opened TickerImport

  datatype Listing = Listing(title: Option<string>, cik: Option<string>, exchange: Option<string>)

  datatype Submission = Submission(
    cik: string,
    name: Option<string>,
    sicCode: Option<string>,
    sicDescription: Option<string>,
    tickers: seq<string>,
    exchanges: seq<string>)

  datatype Draft = Draft(
    ticker: string,
    title: Option<string>,
    cik: Option<string>,
    exchange: Option<string>,
    sicCode: Option<string>,
    sicDescription: Option<string>)

  /** The tables of sectors and tickers, and the clock. */
  datatype Tables = Tables(
    sectorOf: (Option<string>, Option<string>, Option<string>) -> Option<string>,
    tradable: string -> bool,
    now: string)

  predicate Truthy(a: Option<string>) {
    a.Some? && a.value != ""
  }

  /** a or b */
  function Or(a: Option<string>, b: Option<string>): Option<string> {
    if Truthy(a) then a else b
  }

  function First(texts: seq<string>): Option<string> {
    if texts == [] then None else Some(texts[0])
  }

  /** _clean_text(value) or None */
  function Clean(a: Option<string>): Option<string> {
    if a.None? || Strip(a.value) == "" then None else Some(Strip(a.value))
  }

  // ------------------------------------------------------------------
  // Drafts
  // ------------------------------------------------------------------

  function FromListing(ticker: string, l: Listing): Draft {
    Draft(ticker, Or(l.title, Some(ticker)), l.cik, l.exchange, None, None)
  }

  function FromSubmission(ticker: string, s: Submission): Draft {
    Draft(ticker, Or(s.name, Some(ticker)), Some(s.cik), First(s.exchanges), None, None)
  }

  function Enriched(d: Draft, s: Submission): Draft {
    Draft(d.ticker,
          Or(Or(d.title, s.name), Some(d.ticker)),
          Or(d.cik, Some(s.cik)),
          if !Truthy(d.exchange) && s.exchanges != [] then Some(s.exchanges[0]) else d.exchange,
          Or(s.sicCode, d.sicCode),
          Or(s.sicDescription, d.sicDescription))
  }

  type Drafts = map<string, Draft>

  /** The tickers listed under a company number. */
  function Linked(listings: map<string, Listing>, cik: string): set<string> {
    set t | t in listings && Truthy(listings[t].cik) && listings[t].cik == Some(cik)
  }

  function Candidates(listings: map<string, Listing>, s: Submission): set<string> {
    Linked(listings, s.cik) + (set t | t in s.tickers)
  }

  /** What one submission makes of the draft of one of its tickers. */
  function AfterOne(d: Option<Draft>, ticker: string, s: Submission): Draft {
    Enriched(if d.Some? then d.value else FromSubmission(ticker, s), s)
  }

  function Find(drafts: Drafts, ticker: string): Option<Draft> {
    if ticker in drafts then Some(drafts[ticker]) else None
  }

  /** The draft of a ticker after the listings and some submissions. */
  function DraftOf(listings: map<string, Listing>, subs: seq<Submission>, ticker: string): Option<Draft> {
    if subs == [] then (if ticker in listings then Some(FromListing(ticker, listings[ticker])) else None)
    else
      var before, s := DraftOf(listings, subs[..|subs| - 1], ticker), subs[|subs| - 1];
      if ticker in Candidates(listings, s) then Some(AfterOne(before, ticker, s)) else before
  }

  ghost predicate AreDrafts(drafts: Drafts, listings: map<string, Listing>, subs: seq<Submission>) {
    forall ticker :: Find(drafts, ticker) == DraftOf(listings, subs, ticker)
  }

  /** The first loop: the listings, and the tickers of each company number. */
  method ReadListings(listings: map<string, Listing>) returns (drafts: Drafts, byCik: map<string, set<string>>)
    ensures AreDrafts(drafts, listings, [])
    ensures forall cik :: (if cik in byCik then byCik[cik] else {}) == Linked(listings, cik)
  {
    drafts, byCik := map[], map[];
    var rest := listings.Keys;
    while rest != {}
      invariant rest <= listings.Keys
      invariant drafts == map t | t in listings.Keys - rest :: FromListing(t, listings[t])
      invariant forall cik :: (if cik in byCik then byCik[cik] else {}) == Linked(listings, cik) - rest
      decreases rest
    {
      var t :| t in rest;
      var l := listings[t];
      if Truthy(l.cik) {
        var cik := l.cik.value;
        byCik := byCik[cik := (if cik in byCik then byCik[cik] else {}) + {t}];
      }
      drafts := drafts[t := FromListing(t, l)];
      rest := rest - {t};
    }
  }

  /** The loop over the candidates of one submission. */
  method ReadSubmission(drafts: Drafts, candidates: set<string>, s: Submission) returns (out: Drafts)
    ensures forall ticker :: Find(out, ticker)
              == if ticker in candidates then Some(AfterOne(Find(drafts, ticker), ticker, s)) else Find(drafts, ticker)
  {
    out := drafts;
    var rest := candidates;
    while rest != {}
      invariant rest <= candidates
      invariant forall ticker :: Find(out, ticker)
                  == if ticker in candidates - rest then Some(AfterOne(Find(drafts, ticker), ticker, s)) else Find(drafts, ticker)
      decreases rest
    {
      var ticker :| ticker in rest;
      assert Find(out, ticker) == Find(drafts, ticker);
      if ticker !in out { out := out[ticker := FromSubmission(ticker, s)]; }
      out := out[ticker := Enriched(out[ticker], s)];
      rest := rest - {ticker};
    }
  }

  // ------------------------------------------------------------------
  // Finished rows
  // ------------------------------------------------------------------

  /** _normalize_industry */
  function Industry(a: Option<string>): Option<string> {
    match Clean(a)
    case None => None
    case Some(text) => Some(if |text| <= 120 then text else text[..120])
  }

  /** _build_sector_tags; there are never more than three, so that its limit of six is moot. */
  method SectorTags(sector: Option<string>, industry: Option<string>, description: Option<string>)
      returns (tags: seq<string>)
    ensures tags == TagsOf([sector, industry, description])
  {
    tags := [];
    var raws := [sector, industry, description];
    var i := 0;
    while i < 3
      invariant 0 <= i <= 3 && tags == TagsOf(raws[..i])
    {
      var text := Clean(raws[i]);
      assert raws[..i + 1][..i] == raws[..i];
      if text.Some? && text.value !in tags { tags := tags + [text.value]; }
      i := i + 1;
    }
    assert raws[..3] == raws;
  }

  function TagsOf(raws: seq<Option<string>>): seq<string> {
    if raws == [] then []
    else
      var before, text := TagsOf(raws[..|raws| - 1]), Clean(raws[|raws| - 1]);
      if text.Some? && text.value !in before then before + [text.value] else before
  }

  /** Tags are clean, all different, and leave none of the given texts out. */
  lemma {:induction false} TagsMeaning(raws: seq<Option<string>>)
    ensures |TagsOf(raws)| <= |raws|
    ensures forall i, j :: 0 <= i < j < |TagsOf(raws)| ==> TagsOf(raws)[i] != TagsOf(raws)[j]
    ensures forall tag :: tag in TagsOf(raws) <==> exists i :: 0 <= i < |raws| && Clean(raws[i]) == Some(tag)
  {
    if raws != [] {
      var n := |raws| - 1;
      TagsMeaning(raws[..n]);
      forall tag ensures tag in TagsOf(raws) <==> exists i :: 0 <= i < |raws| && Clean(raws[i]) == Some(tag) {
        if tag in TagsOf(raws[..n]) {
          var i :| 0 <= i < n && Clean(raws[..n][i]) == Some(tag);
          assert Clean(raws[i]) == Some(tag);
        }
        if i :| 0 <= i < |raws| && Clean(raws[i]) == Some(tag) {
          if i < n { assert Clean(raws[..n][i]) == Some(tag); }
        }
      }
    }
  }

  /** _confidence, in exact decimals */
  function Confidence(hasExchange: bool, hasSic: bool, hasSector: bool, hasIndustry: bool): (c: real)
    ensures 0.2 <= c <= 1.0
    ensures c == 1.0 <==> hasExchange && hasSic && hasSector && hasIndustry
  {
    0.2 + (if hasExchange then 0.2 else 0.0) + (if hasSic then 0.3 else 0.0) + (if hasSector then 0.2 else 0.0)
    + (if hasIndustry then 0.1 else 0.0)
  }

  /** The row as it is sent to the database. */
  function Finished(d: Draft, tables: Tables): Row {
    var code, description, title := Clean(d.sicCode), Clean(d.sicDescription), Clean(d.title);
    var sector := tables.sectorOf(code, description, title);
    var industry := Industry(description);
    Row(d.ticker, d.title, d.cik, d.exchange, d.sicCode, d.sicDescription, sector, industry,
        Some(TagsOf([sector, industry, description])),
        Some(Confidence(Clean(d.exchange).Some?, code.Some?, Truthy(sector), Truthy(industry))),
        Some(tables.tradable(d.ticker)), Some(tables.now), Some(tables.now))
  }

  /** What is derived in a row is derived from the row's own texts: the sector from its code,
      description and title; the industry from the first 120 characters of its description; the
      tags from these three, each once; and the confidence, 0.2 and for an exchange 0.2, a code
      0.3, a sector 0.2 and an industry 0.1 more. */
  ghost predicate IsDerived(row: Row, tables: Tables) {
    var description := Clean(row.sicDescription);
    && row.sector == tables.sectorOf(Clean(row.sicCode), description, Clean(row.title))
    && (description.None? ==> row.industry == None)
    && (description.Some? ==>
          row.industry == Some(if |description.value| > 120 then description.value[..120] else description.value))
    && row.tags.Some?
    && (forall i, j :: 0 <= i < j < |row.tags.value| ==> row.tags.value[i] != row.tags.value[j])
    && (forall tag :: tag in row.tags.value <==>
          Clean(row.sector) == Some(tag) || Clean(row.industry) == Some(tag) || description == Some(tag))
    && row.confidence == Some(0.2 + Weight(Clean(row.exchange).Some?, 0.2) + Weight(Clean(row.sicCode).Some?, 0.3)
                              + Weight(row.sector.Some? && row.sector.value != "", 0.2)
                              + Weight(row.industry.Some? && row.industry.value != "", 0.1))
    && row.tradable == Some(tables.tradable(row.ticker))
    && row.enrichedAt == Some(tables.now) && row.updatedAt == Some(tables.now)
  }

  function Weight(has: bool, weight: real): real {
    if has then weight else 0.0
  }

  lemma ThreeTags(a: Option<string>, b: Option<string>, c: Option<string>)
    ensures forall tag :: tag in TagsOf([a, b, c]) <==> Clean(a) == Some(tag) || Clean(b) == Some(tag) || Clean(c) == Some(tag)
  {
    var raws := [a, b, c];
    TagsMeaning(raws);
    forall tag ensures tag in TagsOf(raws) <==> Clean(a) == Some(tag) || Clean(b) == Some(tag) || Clean(c) == Some(tag) {
      if Clean(a) == Some(tag) { assert Clean(raws[0]) == Some(tag); }
      if Clean(b) == Some(tag) { assert Clean(raws[1]) == Some(tag); }
      if Clean(c) == Some(tag) { assert Clean(raws[2]) == Some(tag); }
    }
  }

  lemma CleanTwice(a: Option<string>)
    ensures Clean(Clean(a)) == Clean(a)
  {
    if a.Some? { StripTrimmed(a.value); }
    if Clean(a).Some? { StripTrimmed(Clean(a).value); }
  }

  lemma FinishedIsDerived(d: Draft, tables: Tables)
    ensures IsDerived(Finished(d, tables), tables)
  {
    var description := Clean(d.sicDescription);
    var sector := tables.sectorOf(Clean(d.sicCode), description, Clean(d.title));
    CleanTwice(d.sicDescription);
    ThreeTags(sector, Industry(description), description);
    TagsMeaning([sector, Industry(description), description]);
  }

  method FinishRow(d: Draft, tables: Tables) returns (row: Row)
    ensures row == Finished(d, tables)
  {
    var code, description, title := Clean(d.sicCode), Clean(d.sicDescription), Clean(d.title);
    var sector := tables.sectorOf(code, description, title);
    var industry := Industry(description);
    var tags := SectorTags(sector, industry, description);
    row := Row(d.ticker, d.title, d.cik, d.exchange, d.sicCode, d.sicDescription, sector, industry, Some(tags),
               Some(Confidence(Clean(d.exchange).Some?, code.Some?, Truthy(sector), Truthy(industry))),
               Some(tables.tradable(d.ticker)), Some(tables.now), Some(tables.now));
  }

  lemma {:induction false} DraftKeepsTicker(listings: map<string, Listing>, subs: seq<Submission>, ticker: string)
    ensures DraftOf(listings, subs, ticker).Some? ==> DraftOf(listings, subs, ticker).value.ticker == ticker
  {
    if subs != [] { DraftKeepsTicker(listings, subs[..|subs| - 1], ticker); }
  }

  ghost predicate Describes(row: Row, listings: map<string, Listing>, subs: seq<Submission>, tables: Tables) {
    DraftOf(listings, subs, row.ticker).Some? && row == Finished(DraftOf(listings, subs, row.ticker).value, tables)
  }

  predicate Has(rows: seq<Row>, ticker: string) {
    exists i :: 0 <= i < |rows| && rows[i].ticker == ticker
  }

  /** _build_rows: one finished row for every ticker there is a draft of. */
  method BuildRows(listings: map<string, Listing>, subs: seq<Submission>, tables: Tables) returns (rows: seq<Row>)
    ensures DistinctTickers(rows) && Rated(rows)
    ensures forall i :: 0 <= i < |rows| ==> Describes(rows[i], listings, subs, tables) && IsDerived(rows[i], tables)
    ensures forall ticker :: Has(rows, ticker) <==> DraftOf(listings, subs, ticker).Some?
  {
    var drafts, byCik := ReadListings(listings);
    var k := 0;
    while k < |subs|
      invariant 0 <= k <= |subs| && AreDrafts(drafts, listings, subs[..k])
    {
      var s := subs[k];
      var linked := if s.cik in byCik then byCik[s.cik] else {};
      var candidates := linked + (set t | t in s.tickers);
      drafts := ReadSubmission(drafts, candidates, s);
      assert subs[..k + 1][..k] == subs[..k];
      k := k + 1;
    }
    assert subs[..k] == subs;
    rows := FinishAll(drafts, listings, subs, tables);
    forall i | 0 <= i < |rows| ensures IsDerived(rows[i], tables) {
      FinishedIsDerived(DraftOf(listings, subs, rows[i].ticker).value, tables);
    }
  }

  /** The last loop, over by_ticker.values(). */
  method FinishAll(drafts: Drafts, ghost listings: map<string, Listing>, ghost subs: seq<Submission>, tables: Tables)
      returns (rows: seq<Row>)
    requires AreDrafts(drafts, listings, subs)
    ensures DistinctTickers(rows) && Rated(rows)
    ensures forall i :: 0 <= i < |rows| ==> Describes(rows[i], listings, subs, tables)
    ensures forall ticker :: Has(rows, ticker) <==> DraftOf(listings, subs, ticker).Some?
  {
    rows := [];
    var rest := drafts.Keys;
    while rest != {}
      invariant rest <= drafts.Keys && DistinctTickers(rows) && Rated(rows)
      invariant forall i :: 0 <= i < |rows| ==> rows[i].ticker in drafts.Keys - rest
                                                && Describes(rows[i], listings, subs, tables)
      invariant forall ticker :: ticker in drafts.Keys - rest ==> Has(rows, ticker)
      decreases rest
    {
      var ticker :| ticker in rest;
      assert Find(drafts, ticker) == DraftOf(listings, subs, ticker);
      DraftKeepsTicker(listings, subs, ticker);
      var row := FinishRow(drafts[ticker], tables);
      HasMore(rows, row);
      rows := rows + [row];
      rest := rest - {ticker};
    }
    forall ticker ensures Has(rows, ticker) <==> DraftOf(listings, subs, ticker).Some? {
      assert Find(drafts, ticker) == DraftOf(listings, subs, ticker);
    }
  }

  lemma HasMore(rows: seq<Row>, row: Row)
    ensures forall ticker :: Has(rows + [row], ticker) <==> Has(rows, ticker) || row.ticker == ticker
  {
    assert (rows + [row])[|rows|] == row;
    forall ticker | Has(rows, ticker) ensures Has(rows + [row], ticker) {
      var i :| 0 <= i < |rows| && rows[i].ticker == ticker;
      assert (rows + [row])[i].ticker == ticker;
    }
  }

  /** Which tickers get a row: the listed ones and those a submission names. */
  lemma {:induction false} TickersCovered(listings: map<string, Listing>, subs: seq<Submission>, ticker: string)
    ensures DraftOf(listings, subs, ticker).Some?
       <==> ticker in listings || exists k :: 0 <= k < |subs| && ticker in subs[k].tickers
  {
    if subs != [] {
      var n := |subs| - 1;
      TickersCovered(listings, subs[..n], ticker);
      if k :| 0 <= k < n && ticker in subs[..n][k].tickers { assert ticker in subs[k].tickers; }
      if k :| 0 <= k < |subs| && ticker in subs[k].tickers {
        if k < n { assert ticker in subs[..n][k].tickers; }
      }
    }
  }

  /** What the exchange file says of a ticker is never replaced by a submission. */
  lemma {:induction false} ListingWins(listings: map<string, Listing>, subs: seq<Submission>, ticker: string)
    requires ticker in listings
    ensures DraftOf(listings, subs, ticker).Some?
    ensures var d, l := DraftOf(listings, subs, ticker).value, listings[ticker];
            && (Truthy(l.cik) ==> d.cik == l.cik)
            && (Truthy(l.exchange) ==> d.exchange == l.exchange)
            && (Truthy(l.title) ==> d.title == l.title)
  {
    if subs != [] { ListingWins(listings, subs[..|subs| - 1], ticker); }
  }

  /** The submission is about the ticker: it names it, or carries its company number. */
  predicate About(listings: map<string, Listing>, s: Submission, ticker: string) {
    ticker in s.tickers || (ticker in listings && s.cik != "" && listings[ticker].cik == Some(s.cik))
  }

  /** The k-th submission is the first one about the ticker with something in it. */
  ghost predicate IsFirstWith(listings: map<string, Listing>, subs: seq<Submission>, ticker: string,
                              text: Submission -> Option<string>, k: nat) {
    && k < |subs| && About(listings, subs[k], ticker) && Truthy(text(subs[k]))
    && forall l :: 0 <= l < k && About(listings, subs[l], ticker) ==> !Truthy(text(subs[l]))
  }

  ghost predicate NoneWith(listings: map<string, Listing>, subs: seq<Submission>, ticker: string,
                           text: Submission -> Option<string>) {
    forall l :: 0 <= l < |subs| && About(listings, subs[l], ticker) ==> !Truthy(text(subs[l]))
  }

  /** The exchange of a ticker that is listed without one, or not at all, is the first that a
      submission about it gives. */
  lemma {:induction false} FirstExchangeWins(listings: map<string, Listing>, subs: seq<Submission>, ticker: string, k: nat)
    requires ticker in listings ==> !Truthy(listings[ticker].exchange)
    requires IsFirstWith(listings, subs, ticker, (s: Submission) => First(s.exchanges), k)
    ensures DraftOf(listings, subs, ticker).Some?
    ensures DraftOf(listings, subs, ticker).value.exchange == Some(subs[k].exchanges[0])
    decreases |subs|
  {
    var n := |subs| - 1;
    if k < n {
      FirstExchangeWins(listings, subs[..n], ticker, k);
    } else {
      NoExchangeYet(listings, subs[..n], ticker);
    }
  }

  lemma {:induction false} NoExchangeYet(listings: map<string, Listing>, subs: seq<Submission>, ticker: string)
    requires ticker in listings ==> !Truthy(listings[ticker].exchange)
    requires NoneWith(listings, subs, ticker, (s: Submission) => First(s.exchanges))
    ensures DraftOf(listings, subs, ticker).Some? ==> !Truthy(DraftOf(listings, subs, ticker).value.exchange)
  {
    if subs != [] {
      var n := |subs| - 1;
      NoExchangeYet(listings, subs[..n], ticker);
      assert About(listings, subs[n], ticker) ==> !Truthy(First(subs[n].exchanges));
    }
  }

  /** So is its company number. */
  lemma {:induction false} FirstNumberWins(listings: map<string, Listing>, subs: seq<Submission>, ticker: string, k: nat)
    requires ticker in listings ==> !Truthy(listings[ticker].cik)
    requires IsFirstWith(listings, subs, ticker, (s: Submission) => Some(s.cik), k)
    ensures DraftOf(listings, subs, ticker).Some?
    ensures DraftOf(listings, subs, ticker).value.cik == Some(subs[k].cik)
    decreases |subs|
  {
    var n := |subs| - 1;
    if k < n {
      FirstNumberWins(listings, subs[..n], ticker, k);
    } else {
      NoNumberYet(listings, subs[..n], ticker);
    }
  }

  lemma {:induction false} NoNumberYet(listings: map<string, Listing>, subs: seq<Submission>, ticker: string)
    requires ticker in listings ==> !Truthy(listings[ticker].cik)
    requires NoneWith(listings, subs, ticker, (s: Submission) => Some(s.cik))
    ensures DraftOf(listings, subs, ticker).Some? ==> !Truthy(DraftOf(listings, subs, ticker).value.cik)
  {
    if subs != [] {
      var n := |subs| - 1;
      NoNumberYet(listings, subs[..n], ticker);
      assert About(listings, subs[n], ticker) ==> !Truthy(Some(subs[n].cik));
    }
  }

  ghost predicate IsFirstNaming(subs: seq<Submission>, ticker: string, k: nat) {
    k < |subs| && ticker in subs[k].tickers && forall l :: 0 <= l < k ==> ticker !in subs[l].tickers
  }

  /** A listed ticker without a title, or an unlisted one whose first submission has no name, is
      titled by itself; an unlisted one otherwise by that name. */
  lemma {:induction false} TitleMeaning(listings: map<string, Listing>, subs: seq<Submission>, ticker: string)
    requires ticker != "" && DraftOf(listings, subs, ticker).Some?
    ensures var title := DraftOf(listings, subs, ticker).value.title;
            && (ticker in listings && !Truthy(listings[ticker].title) ==> title == Some(ticker))
            && (forall k: nat :: ticker !in listings && IsFirstNaming(subs, ticker, k) ==>
                  title == if Truthy(subs[k].name) then subs[k].name else Some(ticker))
            && Truthy(title)
  {
    if subs != [] {
      var n := |subs| - 1;
      if DraftOf(listings, subs[..n], ticker).Some? {
        TitleMeaning(listings, subs[..n], ticker);
        TickersCovered(listings, subs[..n], ticker);
        assert forall l :: 0 <= l < n ==> subs[..n][l] == subs[l];
      } else {
        TickersCovered(listings, subs[..n], ticker);
        assert forall l :: 0 <= l < n ==> subs[..n][l] == subs[l];
      }
    }
  }

  /** The description is the one of the last submission about the ticker that gives one. */
  lemma {:induction false} LastDescriptionWins(listings: map<string, Listing>, subs: seq<Submission>, ticker: string, k: nat)
    requires k < |subs| && About(listings, subs[k], ticker) && Truthy(subs[k].sicDescription)
    requires forall l :: k < l < |subs| && About(listings, subs[l], ticker) ==> !Truthy(subs[l].sicDescription)
    ensures DraftOf(listings, subs, ticker).Some? && DraftOf(listings, subs, ticker).value.sicDescription == subs[k].sicDescription
    decreases |subs|
  {
    var n := |subs| - 1;
    if k < n {
      assert forall l :: k <= l < n ==> subs[..n][l] == subs[l];
      LastDescriptionWins(listings, subs[..n], ticker, k);
    }
  }

  /** The industry code is the one of the last submission of the ticker that gives one. */
  lemma {:induction false} LastCodeWins(listings: map<string, Listing>, subs: seq<Submission>, ticker: string, k: nat)
    requires k < |subs| && About(listings, subs[k], ticker) && Truthy(subs[k].sicCode)
    requires forall l :: k < l < |subs| && About(listings, subs[l], ticker) ==> !Truthy(subs[l].sicCode)
    ensures DraftOf(listings, subs, ticker).Some? && DraftOf(listings, subs, ticker).value.sicCode == subs[k].sicCode
    decreases |subs|
  {
    var n := |subs| - 1;
    if k < n {
      assert forall l :: k <= l < n ==> subs[..n][l] == subs[l];
      LastCodeWins(listings, subs[..n], ticker, k);
    }
  }
}

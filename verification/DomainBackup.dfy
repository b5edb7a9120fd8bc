/** First-write-wins backup of PKM domains and their restoration at the end of a run
    (scripts/local_pkm_core_path_smoke.py), against a server that keeps a blob, a manifest
    and a summary for each domain. */
module DomainBackup {
  import opened Text
  import opened Json
  import opened EntityCount
  import opened EntityEdit
  import opened PreviewEdit
  import DomainTree

  datatype Backup = Backup(existed: bool, blob: Option<Fields>, manifest: Option<Fields>, summary: Option<Fields>)

  /** The server's tables and the run's backups. */
  datatype PkmState = PkmState(
    blobs: map<string, Fields>, manifests: map<string, Fields>, summaries: map<string, Fields>,
    backups: map<string, Backup>)

  /** Domain encryption: a dict to the blob sent to the server, and back. */
  datatype Cipher = Cipher(encrypt: Fields -> Fields, decrypt: Fields -> Fields)

  function Lookup(m: map<string, Fields>, domain: string): Option<Fields> {
    if domain in m then Some(m[domain]) else None
  }

  function BackupOf(s: PkmState, domain: string): Backup {
    Backup(domain in s.blobs, Lookup(s.blobs, domain), Lookup(s.manifests, domain), Lookup(s.summaries, domain))
  }

  /** backup_domain: only the first call for a domain records anything. */
  function BackedUp(s: PkmState, domain: string): PkmState {
    if domain in s.backups then s
    else
      s.(backups := s.backups[domain := BackupOf(s, domain)])
  }

  /** A completed POST to store-domain. */
  function Posted(s: PkmState, domain: string, blob: Fields, manifest: Fields, summary: Fields): PkmState {
    s.(blobs := s.blobs[domain := blob], manifests := s.manifests[domain := manifest],
       summaries := s.summaries[domain := summary])
  }

  /** A write of a run: what it posts, and whether the request went through. */
  datatype Write = Write(domain: string, blob: Fields, manifest: Fields, summary: Fields, accepted: bool)

  function AfterWrite(s: PkmState, w: Write): PkmState {
    var backed := BackedUp(s, w.domain);
    if w.accepted then Posted(backed, w.domain, w.blob, w.manifest, w.summary) else backed
  }

  function Run(s: PkmState, writes: seq<Write>): PkmState {
    if writes == [] then s else AfterWrite(Run(s, writes[..|writes| - 1]), writes[|writes| - 1])
  }

  // ------------------------------------------------------------------
  // The readable summary
  // ------------------------------------------------------------------

  /** What _now_iso and _local_time_metadata read off the clock. */
  datatype Clock = Clock(iso: string, zone: string, localTime: string)

  function Head(text: string, max: nat): string {
    if |text| <= max then text else text[..max]
  }

  /** _source_label_for_domain */
  function SourceLabel(domain: string, prior: Fields, show: Json -> string): string {
    var existing := Strip(TextOf(Field(prior, "readable_source_label"), show));
    if existing != "" then existing else if domain == "ria" then "Advisor package" else "Saved memory"
  }

  /** The entities of a domain, or 1 for data without any. */
  ghost function ItemCount(data: Fields): nat {
    if Count(Obj(data)) > 0 then Count(Obj(data)) else if data != map[] then 1 else 0
  }

  function SummaryUpdate(domain: string, message: string, items: nat, prior: Fields, clock: Clock, show: Json -> string): Fields {
    map["item_count" := Num(items as real),
        "attribute_count" := Num(items as real),
        "readable_summary" := Str(Head(message, 220)),
        "readable_highlights" := Arr([Str(Head(message, 120))]),
        "readable_updated_at" := Str(clock.iso),
        "readable_source_label" := Str(SourceLabel(domain, prior, show)),
        "source_timezone" := Str(clock.zone),
        "source_local_time" := Str(clock.localTime)]
  }

  const SUMMARY_KEYS: set<string> := {
    "item_count", "attribute_count", "readable_summary", "readable_highlights", "readable_updated_at",
    "readable_source_label", "source_timezone", "source_local_time"}

  ghost function SummaryOf(domain: string, message: string, data: Fields, prior: Fields, clock: Clock,
                           show: Json -> string): Fields {
    prior + SummaryUpdate(domain, message, ItemCount(data), prior, clock, show)
  }

  /** _build_summary */
  method BuildSummary(domain: string, message: string, data: Fields, prior: Fields, clock: Clock, show: Json -> string)
      returns (summary: Fields)
    ensures summary == SummaryOf(domain, message, data, prior, clock, show)
  {
    var items := CountEntities(Obj(data));
    if items <= 0 { items := if data != map[] then 1 else 0; }
    summary := prior + SummaryUpdate(domain, message, items, prior, clock, show);
  }

  lemma UpdateFields(domain: string, message: string, items: nat, prior: Fields, clock: Clock, show: Json -> string)
    ensures var update := SummaryUpdate(domain, message, items, prior, clock, show);
            && update.Keys == SUMMARY_KEYS
            && update["item_count"] == Num(items as real)
            && update["readable_source_label"] == Str(SourceLabel(domain, prior, show))
  {
  }

  lemma LabelSticks(domain: string, prior: Fields, summary: Fields, show: Json -> string)
    requires Field(summary, "readable_source_label") == Str(SourceLabel(domain, prior, show))
    ensures SourceLabel(domain, summary, show) == SourceLabel(domain, prior, show)
  {
    LabelIsClean(domain, prior, show);
    StripTrimmed(SourceLabel(domain, prior, show));
  }

  lemma LabelIsClean(domain: string, prior: Fields, show: Json -> string)
    ensures SourceLabel(domain, prior, show) != "" && Trimmed(SourceLabel(domain, prior, show))
  {
    StripTrimmed(TextOf(Field(prior, "readable_source_label"), show));
  }

  lemma Layered(prior: Fields, update: Fields, k: string)
    ensures k !in update ==> (k in prior + update <==> k in prior) && Field(prior + update, k) == Field(prior, k)
    ensures k in update ==> Field(prior + update, k) == update[k]
  {
  }

  /** What a summary takes over from the one before, and what it says of the data. */
  lemma SummaryMeaning(domain: string, message: string, data: Fields, prior: Fields, clock: Clock, show: Json -> string)
    ensures var summary := SummaryOf(domain, message, data, prior, clock, show);
            && (forall k :: k !in SUMMARY_KEYS ==> (k in summary <==> k in prior) && Field(summary, k) == Field(prior, k))
            && SourceLabel(domain, summary, show) == SourceLabel(domain, prior, show)
            && Field(summary, "item_count") == Num(ItemCount(data) as real)
  {
    var update := SummaryUpdate(domain, message, ItemCount(data), prior, clock, show);
    UpdateFields(domain, message, ItemCount(data), prior, clock, show);
    SummaryFrom(domain, prior, update, ItemCount(data), show);
  }

  lemma SummaryFrom(domain: string, prior: Fields, update: Fields, items: nat, show: Json -> string)
    requires update.Keys == SUMMARY_KEYS && update["item_count"] == Num(items as real)
    requires update["readable_source_label"] == Str(SourceLabel(domain, prior, show))
    ensures forall k :: k !in SUMMARY_KEYS ==>
              (k in prior + update <==> k in prior) && Field(prior + update, k) == Field(prior, k)
    ensures SourceLabel(domain, prior + update, show) == SourceLabel(domain, prior, show)
    ensures Field(prior + update, "item_count") == Num(items as real)
  {
    Layered(prior, update, "item_count");
    Layered(prior, update, "readable_source_label");
    LabelSticks(domain, prior, prior + update, show);
    forall k | k !in SUMMARY_KEYS
      ensures (k in prior + update <==> k in prior) && Field(prior + update, k) == Field(prior, k)
    {
      Layered(prior, update, k);
    }
  }

  /** What the eight keys of a summary hold that are written. */
  ghost predicate Shows(summary: Fields, domain: string, message: string, items: nat, written: string, clock: Clock) {
    && Field(summary, "item_count") == Num(items as real) && Field(summary, "attribute_count") == Num(items as real)
    && Field(summary, "readable_summary") == Str(if |message| > 220 then message[..220] else message)
    && Field(summary, "readable_highlights") == Arr([Str(if |message| > 120 then message[..120] else message)])
    && Field(summary, "readable_updated_at") == Str(clock.iso)
    && Field(summary, "readable_source_label")
       == Str(if written != "" then written else if domain == "ria" then "Advisor package" else "Saved memory")
    && Field(summary, "source_timezone") == Str(clock.zone)
    && Field(summary, "source_local_time") == Str(clock.localTime)
  }

  ghost predicate TakesOver(summary: Fields, prior: Fields) {
    forall k :: k !in {"item_count", "attribute_count", "readable_summary", "readable_highlights", "readable_updated_at",
                       "readable_source_label", "source_timezone", "source_local_time"} ==>
                  (k in summary <==> k in prior) && Field(summary, k) == Field(prior, k)
  }

  lemma UpdateShows(domain: string, message: string, items: nat, prior: Fields, clock: Clock, show: Json -> string)
    ensures Shows(SummaryUpdate(domain, message, items, prior, clock, show), domain, message, items,
                  Strip(TextOf(Field(prior, "readable_source_label"), show)), clock)
  {
  }

  lemma UpdateStays(prior: Fields, update: Fields, domain: string, message: string, items: nat, written: string, clock: Clock)
    requires update.Keys == SUMMARY_KEYS && Shows(update, domain, message, items, written, clock)
    ensures Shows(prior + update, domain, message, items, written, clock) && TakesOver(prior + update, prior)
  {
    forall k ensures Field(prior + update, k) == if k in update then Field(update, k) else Field(prior, k) {
      Layered(prior, update, k);
    }
  }

  /** Each key of a summary: the eight that are written, and those of the summary before. The count
      is the number of places at which an entity stands that is not deleted, or 1 for data without any. */
  lemma SummaryShows(domain: string, message: string, data: Fields, prior: Fields, clock: Clock, show: Json -> string)
    ensures var summary := SummaryOf(domain, message, data, prior, clock, show);
            && TakesOver(summary, prior)
            && exists places :: AreTheEntities(Obj(data), places)
                                && Shows(summary, domain, message, if |places| > 0 then |places| else if data == map[] then 0 else 1,
                                         Strip(TextOf(Field(prior, "readable_source_label"), show)), clock)
  {
    CountMeaning(Obj(data));
    UpdateFields(domain, message, ItemCount(data), prior, clock, show);
    UpdateShows(domain, message, ItemCount(data), prior, clock, show);
    UpdateStays(prior, SummaryUpdate(domain, message, ItemCount(data), prior, clock, show), domain, message, ItemCount(data),
                Strip(TextOf(Field(prior, "readable_source_label"), show)), clock);
  }

  /** A call of store_preview_result, and whether the server accepts its request. */
  datatype Call = Call(domain: string, message: string, preview: Fields, clock: Clock, accepted: bool)

  function Current(s: PkmState, domain: string, cipher: Cipher): Fields {
    if domain in s.blobs then cipher.decrypt(s.blobs[domain]) else map[]
  }

  /** _domain_backups[domain].summary or {}, after the call's own backup. */
  function PriorSummary(s: PkmState, domain: string): Fields {
    var kept := if domain in s.backups then s.backups[domain].summary else Lookup(s.summaries, domain);
    if kept.Some? then kept.value else map[]
  }

  ghost function WriteOf(s: PkmState, call: Call, cipher: Cipher, show: Json -> string): Write {
    var data := Apply(Current(s, call.domain, cipher), ReadPreview(call.preview, show));
    Write(call.domain, cipher.encrypt(data), DictOrEmpty(Field(call.preview, "manifest_draft")),
          SummaryOf(call.domain, call.message, data, PriorSummary(s, call.domain), call.clock, show), call.accepted)
  }

  /** The writes that some calls make, each from the state the calls before it left. */
  ghost function WritesOf(s: PkmState, calls: seq<Call>, cipher: Cipher, show: Json -> string): (writes: seq<Write>)
    ensures |writes| == |calls|
  {
    if calls == [] then []
    else
      var before := WritesOf(s, calls[..|calls| - 1], cipher, show);
      before + [WriteOf(Run(s, before), calls[|calls| - 1], cipher, show)]
  }

  /** What one call of store_preview_result leaves on the server: nothing new if its request is
      refused, and otherwise the edit the preview stands for, encrypted, with the preview's own
      manifest, and no other domain touched. */
  ghost predicate Stored(before: PkmState, call: Call, after: PkmState, cipher: Cipher, show: Json -> string) {
    && (forall other :: other != call.domain || !call.accepted ==> View(after, other) == View(before, other))
    && (call.accepted ==>
          && call.domain in after.blobs && call.domain in after.manifests
          && after.manifests[call.domain] == DictAt(call.preview, ["manifest_draft"])
          && exists data :: PostsEdit(before, call, after.blobs[call.domain], data, cipher, show))
  }

  ghost predicate PostsEdit(before: PkmState, call: Call, blob: Fields, data: Fields, cipher: Cipher, show: Json -> string) {
    && blob == cipher.encrypt(data)
    && Edited(if call.domain in before.blobs then cipher.decrypt(before.blobs[call.domain]) else map[],
              ReadPreview(call.preview, show), data)
  }

  lemma WriteMeaning(s: PkmState, call: Call, cipher: Cipher, show: Json -> string)
    ensures var w := WriteOf(s, call, cipher, show);
            && w.domain == call.domain && w.accepted == call.accepted
            && w.manifest == DictAt(call.preview, ["manifest_draft"])
            && exists data :: PostsEdit(s, call, w.blob, data, cipher, show)
  {
    var current := Current(s, call.domain, cipher);
    var data := Apply(current, ReadPreview(call.preview, show));
    ApplyMeaning(current, ReadPreview(call.preview, show));
    OneKey(Obj(call.preview), "manifest_draft");
    assert PostsEdit(s, call, WriteOf(s, call, cipher, show).blob, data, cipher, show);
  }

  lemma OtherWriteKeeps(t: PkmState, w: Write, domain: string)
    requires w.domain != domain || !w.accepted
    ensures View(AfterWrite(t, w), domain) == View(t, domain)
  {
  }

  lemma WriteIsStored(s: PkmState, call: Call, w: Write, data: Fields, cipher: Cipher, show: Json -> string)
    requires w.domain == call.domain && w.accepted == call.accepted
    requires w.manifest == DictAt(call.preview, ["manifest_draft"]) && PostsEdit(s, call, w.blob, data, cipher, show)
    ensures Stored(s, call, AfterWrite(s, w), cipher, show)
  {
    forall other | other != call.domain || !call.accepted ensures View(AfterWrite(s, w), other) == View(s, other) {
      OtherWriteKeeps(s, w, other);
    }
    if call.accepted { assert PostsEdit(s, call, AfterWrite(s, w).blobs[call.domain], data, cipher, show); }
  }

  lemma StoredMeaning(s: PkmState, call: Call, cipher: Cipher, show: Json -> string)
    ensures Stored(s, call, AfterWrite(s, WriteOf(s, call, cipher, show)), cipher, show)
  {
    WriteMeaning(s, call, cipher, show);
    var w := WriteOf(s, call, cipher, show);
    var data :| PostsEdit(s, call, w.blob, data, cipher, show);
    WriteIsStored(s, call, w, data, cipher, show);
  }

  /** What restore_domains does for one backed-up domain. */
  function RestoredDomain(s: PkmState, domain: string): PkmState
    requires domain in s.backups
  {
    var backup := s.backups[domain];
    if !backup.existed then
      s.(blobs := s.blobs - {domain}, manifests := s.manifests - {domain}, summaries := s.summaries - {domain})
    else if backup.blob.None? || backup.manifest.None? then s
    else
      Posted(s, domain, backup.blob.value, backup.manifest.value,
             if backup.summary.Some? then backup.summary.value else map[])
  }

  /** What one domain looks like: its blob, manifest and summary. */
  function View(s: PkmState, domain: string): (Option<Fields>, Option<Fields>, Option<Fields>) {
    (Lookup(s.blobs, domain), Lookup(s.manifests, domain), Lookup(s.summaries, domain))
  }

  /** One domain once the domains in `done` are restored. */
  function RestoredView(s: PkmState, domain: string, done: set<string>): (Option<Fields>, Option<Fields>, Option<Fields>)
    requires done <= s.backups.Keys
  {
    if domain in done then View(RestoredDomain(s, domain), domain) else View(s, domain)
  }

  /** `after` is `before` with every backed-up domain restored. */
  ghost predicate Restores(before: PkmState, after: PkmState) {
    && after.backups == before.backups
    && forall domain: string :: View(after, domain) == RestoredView(before, domain, before.backups.Keys)
  }

  /** The object of a run, holding its backups, beside the server it talks to. */
  class CorePathSmoke {
    var state: PkmState

    constructor (state: PkmState)
      ensures this.state == state
    {
      this.state := state;
    }

    method BackupDomain(domain: string)
      modifies this
      ensures state == BackedUp(old(state), domain)
    {
      if domain in state.backups { return; }
      var blob := Lookup(state.blobs, domain);
      var manifest := Lookup(state.manifests, domain);
      var summary := Lookup(state.summaries, domain);
      state := state.(backups := state.backups[domain := Backup(blob.Some?, blob, manifest, summary)]);
    }

    /** store_preview_result: back up, decrypt, edit, encrypt, summarize, post. */
    method StorePreviewResult(call: Call, cipher: Cipher, show: Json -> string)
      modifies this
      ensures state == AfterWrite(old(state), WriteOf(old(state), call, cipher, show))
      ensures Stored(old(state), call, state, cipher, show)
    {
      StoredMeaning(state, call, cipher, show);
      var domain := call.domain;
      BackupDomain(domain);
      var kept := state.backups[domain].summary;
      var prior: Fields := if kept.Some? then kept.value else map[];
      var current: Fields := map[];
      if domain in state.blobs { current := cipher.decrypt(state.blobs[domain]); }
      var next := DomainTree.ApplyPreview(current, ReadPreview(call.preview, show));
      var blob := cipher.encrypt(next);
      var manifest := DictOrEmpty(Field(call.preview, "manifest_draft"));
      var summary := BuildSummary(domain, call.message, next, prior, call.clock, show);
      if call.accepted {
        state := Posted(state, domain, blob, manifest, summary);
      }
    }

    /** restore_domains: the backed-up domains in some order. */
    method RestoreDomains()
      modifies this
      ensures Restores(old(state), state)
    {
      var pending := state.backups.Keys;
      while pending != {}
        invariant pending <= old(state).backups.Keys && state.backups == old(state).backups
        invariant forall domain: string ::
          View(state, domain) == RestoredView(old(state), domain, old(state).backups.Keys - pending)
        decreases pending
      {
        var domain :| domain in pending;
        ghost var before := state;
        state := RestoredDomain(state, domain);
        OtherDomainsKept(before, domain);
        SameBackupSameView(before, old(state), domain);
        pending := pending - {domain};
      }
    }
  }

  lemma OtherDomainsKept(s: PkmState, domain: string)
    requires domain in s.backups
    ensures forall other: string :: other != domain ==> View(RestoredDomain(s, domain), other) == View(s, other)
  {
  }

  lemma SameBackupSameView(s: PkmState, t: PkmState, domain: string)
    requires domain in s.backups && s.backups == t.backups && View(s, domain) == View(t, domain)
    ensures View(RestoredDomain(s, domain), domain) == View(RestoredDomain(t, domain), domain)
  {
    var backup := s.backups[domain];
    if !backup.existed {
      assert View(RestoredDomain(s, domain), domain) == (None, None, None);
      assert View(RestoredDomain(t, domain), domain) == (None, None, None);
    }
  }

  // ------------------------------------------------------------------
  // Undo over whole runs
  // ------------------------------------------------------------------

  /** Some write of the run was to this domain. */
  predicate Wrote(writes: seq<Write>, domain: string) {
    writes != [] && (writes[|writes| - 1].domain == domain || Wrote(writes[..|writes| - 1], domain))
  }

  /** Some write to this domain was accepted. */
  predicate WroteThrough(writes: seq<Write>, domain: string) {
    writes != []
    && ((writes[|writes| - 1].domain == domain && writes[|writes| - 1].accepted)
        || WroteThrough(writes[..|writes| - 1], domain))
  }

  /** How a state `t` of a run relates to its initial state `s` at one domain. */
  predicate Tracks(s: PkmState, t: PkmState, domain: string, wrote: bool, through: bool) {
    && (domain in t.backups <==> wrote)
    && (wrote ==> t.backups[domain] == BackupOf(s, domain))
    && (!through ==> View(t, domain) == View(s, domain))
    && (through ==> wrote && domain in t.blobs && domain in t.manifests)
  }

  lemma BackupTracks(s: PkmState, t: PkmState, domain: string, wrote: bool, through: bool, written: string)
    requires Tracks(s, t, domain, wrote, through)
    ensures Tracks(s, BackedUp(t, written), domain, wrote || written == domain, through)
  {
    if written == domain && !wrote {
      assert View(t, domain) == View(s, domain);
      assert domain in t.blobs <==> domain in s.blobs;
    }
  }

  /** The summary a domain had before the run. */
  function FirstSummary(s: PkmState, domain: string): Fields {
    if domain in s.summaries then s.summaries[domain] else map[]
  }

  /** However often a domain is written, its backup is the state before the first write;
      a domain no write got through to is as it was. */
  lemma {:induction false} BackupIsInitial(s: PkmState, writes: seq<Write>, domain: string)
    requires s.backups == map[]
    ensures Tracks(s, Run(s, writes), domain, Wrote(writes, domain), WroteThrough(writes, domain))
  {
    if writes != [] {
      var n := |writes| - 1;
      BackupIsInitial(s, writes[..n], domain);
      BackupTracks(s, Run(s, writes[..n]), domain, Wrote(writes[..n], domain), WroteThrough(writes[..n], domain),
                   writes[n].domain);
    }
  }

  /** After any run of writes and one restore, a domain has its initial blob and manifest
      again exactly when it had both to begin with, or neither, or was left unwritten, or
      had only a blob and every write to it was refused. */
  lemma UndoOverRuns(s: PkmState, writes: seq<Write>, after: PkmState, domain: string)
    requires s.backups == map[] && Restores(Run(s, writes), after)
    ensures (View(after, domain).0 == View(s, domain).0 && View(after, domain).1 == View(s, domain).1)
       <==> (domain in s.blobs <==> domain in s.manifests)
            || !Wrote(writes, domain)
            || (domain in s.blobs && !WroteThrough(writes, domain))
    ensures !Wrote(writes, domain) ==> View(after, domain) == View(s, domain)
    ensures domain in s.blobs && domain in s.manifests && domain in s.summaries ==> View(after, domain) == View(s, domain)
  {
    BackupIsInitial(s, writes, domain);
    assert View(after, domain) == RestoredView(Run(s, writes), domain, Run(s, writes).backups.Keys);
  }

  /** What each domain looks like after a run of writes and one restore. A domain that was there with
      its manifest has both again, with its first summary or an empty one; a domain that was not
      there is gone, manifest and summary included; a domain without a manifest is left as written. */
  lemma UndoExactly(s: PkmState, writes: seq<Write>, after: PkmState, domain: string)
    requires s.backups == map[] && Restores(Run(s, writes), after)
    ensures View(after, domain) ==
            if !Wrote(writes, domain) then View(s, domain)
            else if domain !in s.blobs then (None, None, None)
            else if domain !in s.manifests then View(Run(s, writes), domain)
            else (Some(s.blobs[domain]), Some(s.manifests[domain]), Some(FirstSummary(s, domain)))
  {
    BackupIsInitial(s, writes, domain);
    var t := Run(s, writes);
    assert View(after, domain) == RestoredView(t, domain, t.backups.Keys);
    if Wrote(writes, domain) && domain !in s.blobs { assert View(RestoredDomain(t, domain), domain) == (None, None, None); }
  }

  // ------------------------------------------------------------------
  // Summaries over whole runs
  // ------------------------------------------------------------------

  /** A domain's summary goes with its blob, and with the summary there was at first. */
  ghost predicate Describes(s: PkmState, t: PkmState, domain: string, cipher: Cipher, show: Json -> string) {
    && domain in t.summaries && domain in t.blobs
    && (forall k :: k !in SUMMARY_KEYS ==>
          (k in t.summaries[domain] <==> k in FirstSummary(s, domain))
          && Field(t.summaries[domain], k) == Field(FirstSummary(s, domain), k))
    && SourceLabel(domain, t.summaries[domain], show) == SourceLabel(domain, FirstSummary(s, domain), show)
    && Field(t.summaries[domain], "item_count") == Num(ItemCount(cipher.decrypt(t.blobs[domain])) as real)
  }

  /** Every summary is built on the one the domain had at first, whatever was posted since. */
  lemma PriorIsFirst(s: PkmState, writes: seq<Write>, domain: string)
    requires s.backups == map[]
    ensures PriorSummary(Run(s, writes), domain) == FirstSummary(s, domain)
  {
    BackupIsInitial(s, writes, domain);
    if !WroteThrough(writes, domain) && !Wrote(writes, domain) {
      assert View(Run(s, writes), domain) == View(s, domain);
    }
  }

  lemma AcceptedDescribes(s: PkmState, writes: seq<Write>, call: Call, cipher: Cipher, show: Json -> string)
    requires s.backups == map[] && call.accepted && forall f :: cipher.decrypt(cipher.encrypt(f)) == f
    ensures Describes(s, AfterWrite(Run(s, writes), WriteOf(Run(s, writes), call, cipher, show)), call.domain, cipher, show)
  {
    var t := Run(s, writes);
    PriorIsFirst(s, writes, call.domain);
    SummaryMeaning(call.domain, call.message, Apply(Current(t, call.domain, cipher), ReadPreview(call.preview, show)),
                   FirstSummary(s, call.domain), call.clock, show);
  }

  /** After any run of calls, the summary of a domain that some call got through to counts the
      entities of the blob now stored, and keeps the source label and every key of its own that
      the domain's first summary had. */
  lemma {:induction false} SummariesDescribeBlobs(s: PkmState, calls: seq<Call>, domain: string, cipher: Cipher,
                                                  show: Json -> string)
    requires s.backups == map[] && forall f :: cipher.decrypt(cipher.encrypt(f)) == f
    requires WroteThrough(WritesOf(s, calls, cipher, show), domain)
    ensures Describes(s, Run(s, WritesOf(s, calls, cipher, show)), domain, cipher, show)
  {
    var n := |calls| - 1;
    var before := WritesOf(s, calls[..n], cipher, show);
    var writes := WritesOf(s, calls, cipher, show);
    assert writes[..n] == before;
    if calls[n].domain == domain && calls[n].accepted {
      AcceptedDescribes(s, before, calls[n], cipher, show);
    } else {
      SummariesDescribeBlobs(s, calls[..n], domain, cipher, show);
      OtherWriteKeeps(Run(s, before), writes[n], domain);
    }
  }
}

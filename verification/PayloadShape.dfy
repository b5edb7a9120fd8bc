/** The read-only audit of a decrypted payload (scripts/audit_active_pkm_shape_readonly.py,
    summarize_payload_shape): one walk that counts nodes and lists redacted paths, and never
    shows a value. */
module PayloadShape {
  import opened Text

  /** A payload. The order of a dict's entries matters here, because the lists are capped. */
  datatype Tree =
    | Null
    | Bool(flag: bool)
    | Num(value: real)
    | Str(text: string)
    | Arr(items: seq<Tree>)
    | Obj(entries: seq<Entry>)

  datatype Entry = Entry(key: string, value: Tree)

  /** str.lower(), the characters that the pattern `\d` matches, and the two word lists. */
  datatype Rules = Rules(lower: string -> string, digit: char -> bool, noisyTokens: seq<string>, structuralKeys: seq<string>)

  const MAX_PATHS: nat := 240
  const MAX_FINDINGS: nat := 80
  const MAX_ITEMS_WALKED: nat := 100
  const WIDE: nat := 16

  const NOISY_KEY_TOKENS: seq<string> := [
    "artifact", "debug", "deterministic", "enrichment", "hash", "internal", "metadata", "parser", "provenance",
    "raw", "schema", "source", "trace", "workflow"]

  const STRUCTURAL_ENTITY_KEYS: seq<string> := ["entities", "items", "_items", "records", "statements"]

  /** The rules of this audit. */
  function AuditRules(lower: string -> string, digit: char -> bool): Rules {
    Rules(lower, digit, NOISY_KEY_TOKENS, STRUCTURAL_ENTITY_KEYS)
  }

  // ------------------------------------------------------------------
  // Redaction
  // ------------------------------------------------------------------

  /** re.fullmatch(r"[a-f0-9]{8,}", s) */
  predicate IsHexId(s: string) {
    |s| >= 8 && forall i :: 0 <= i < |s| ==> 'a' <= s[i] <= 'f' || '0' <= s[i] <= '9'
  }

  /** re.search(r"\d{4,}", s) */
  predicate HasDigitRun(s: string, rules: Rules) {
    exists i :: 0 <= i <= |s| - 4 && DigitsAt(s, i, rules)
  }

  predicate DigitsAt(s: string, i: nat, rules: Rules)
    requires i <= |s| - 4
  {
    rules.digit(s[i]) && rules.digit(s[i + 1]) && rules.digit(s[i + 2]) && rules.digit(s[i + 3])
  }

  function RedactSegment(segment: string, parent: Option<string>, rules: Rules): string {
    var text := Strip(segment);
    var lowered := rules.lower(text);
    if text == "" then ""
    else if parent.Some? && parent.value in rules.structuralKeys then "{item}"
    else if '@' in text then "{email}"
    else if IsHexId(lowered) then "{id}"
    else if HasDigitRun(lowered, rules) then "{id}"
    else if |text| > 40 then "{key}"
    else lowered
  }

  /** The redacted segments of a path, those that redact to nothing left out. */
  function RedactedParts(path: seq<string>, rules: Rules): seq<string> {
    if path == [] then []
    else
      var n := |path| - 1;
      var redacted := RedactSegment(path[n], if n == 0 then None else Some(rules.lower(path[n - 1])), rules);
      RedactedParts(path[..n], rules) + (if redacted == "" then [] else [redacted])
  }

  function RedactedPath(path: seq<string>, rules: Rules): string {
    var parts := RedactedParts(path, rules);
    if parts == [] || Join(parts, ".") == "" then "root" else Join(parts, ".")
  }

  // ------------------------------------------------------------------
  // What the walk visits
  // ------------------------------------------------------------------

  datatype Bucket = Short | Medium | Long | VeryLong

  function BucketOf(text: string): Bucket {
    if |text| <= 32 then Short else if |text| <= 160 then Medium else if |text| <= 1000 then Long else VeryLong
  }

  /** Everything the walk looks at in a node: no value of a scalar is part of it. */
  datatype Kind =
    | Object(size: nat)
    | Array(size: nat)
    | NullKind
    | BooleanKind
    | NumberKind
    | StringKind(bucket: Bucket)

  datatype Visit = Visit(path: seq<string>, kind: Kind)

  function KindOf(t: Tree): Kind {
    match t
    case Null => NullKind
    case Bool(_) => BooleanKind
    case Num(_) => NumberKind
    case Str(text) => StringKind(BucketOf(text))
    case Arr(items) => Array(|items|)
    case Obj(entries) => Object(|entries|)
  }

  function Walked(items: seq<Tree>): nat {
    if |items| < MAX_ITEMS_WALKED then |items| else MAX_ITEMS_WALKED
  }

  function ItemSegment(item: Tree, index: nat): string {
    if item.Obj? then "_items" else Decimal(index)
  }

  /** The nodes in the order of the walk. */
  function Visits(t: Tree, path: seq<string>): seq<Visit>
    decreases t, 1, 0
  {
    [Visit(path, KindOf(t))]
    + (match t
       case Obj(entries) => EntryVisits(t, path, |entries|)
       case Arr(items) => ItemVisits(t, path, Walked(items))
       case _ => [])
  }

  function EntryVisits(t: Tree, path: seq<string>, n: nat): seq<Visit>
    requires t.Obj? && n <= |t.entries|
    decreases t, 0, n
  {
    if n == 0 then []
    else EntryVisits(t, path, n - 1) + Visits(t.entries[n - 1].value, path + [t.entries[n - 1].key])
  }

  function ItemVisits(t: Tree, path: seq<string>, n: nat): seq<Visit>
    requires t.Arr? && n <= |t.items|
    decreases t, 0, n
  {
    if n == 0 then []
    else ItemVisits(t, path, n - 1) + Visits(t.items[n - 1], path + [ItemSegment(t.items[n - 1], n - 1)])
  }

  // ------------------------------------------------------------------
  // The summary
  // ------------------------------------------------------------------

  datatype Finding =
    | Counted(path: string, count: nat)
    | Bucketed(path: string, bucket: Bucket)
    | Keyed(path: string, key: string)

  datatype Counts = Counts(
    objects: nat,
    arrays: nat,
    scalars: nat,
    strings: nat,
    numbers: nat,
    booleans: nat,
    nulls: nat,
    short: nat,
    medium: nat,
    long: nat,
    veryLong: nat)

  datatype Lists = Lists(
    paths: seq<string>,
    largeArrays: seq<Finding>,
    wideObjects: seq<Finding>,
    longStrings: seq<Finding>,
    noisyPaths: seq<Finding>,
    entityCollections: seq<Finding>)

  datatype Summary = Summary(maxDepth: nat, counts: Counts, lists: Lists)

  const EMPTY := Summary(0, Counts(0, 0, 0, 0, 0, 0, 0, 0, 0, 0, 0), Lists([], [], [], [], [], []))

  /** path[-1].lower() if path else "" */
  function KeyOf(path: seq<string>, rules: Rules): string {
    if path == [] then "" else rules.lower(path[|path| - 1])
  }

  /** part in s */
  predicate Contains(s: string, part: string) {
    |part| <= |s| && (s[..|part|] == part || (s != "" && Contains(s[1..], part)))
  }

  /** any(token in key for token in tokens) */
  predicate Noisy(key: string, tokens: seq<string>) {
    exists i :: 0 <= i < |tokens| && Contains(key, tokens[i])
  }

  function Capped<T>(list: seq<T>, item: T, max: nat): seq<T> {
    if |list| < max then list + [item] else list
  }

  function WithPath(paths: seq<string>, path: string): seq<string> {
    if path in paths then paths else Capped(paths, path, MAX_PATHS)
  }

  /** The findings about one node. */
  function EntityFinding(v: Visit, rules: Rules): Option<Finding> {
    if v.kind.Object? && KeyOf(v.path, rules) in rules.structuralKeys
    then Some(Counted(RedactedPath(v.path, rules), v.kind.size)) else None
  }

  function WideFinding(v: Visit, rules: Rules): Option<Finding> {
    if v.kind.Object? && v.kind.size >= WIDE then Some(Counted(RedactedPath(v.path, rules), v.kind.size)) else None
  }

  function LargeFinding(v: Visit, rules: Rules): Option<Finding> {
    if v.kind.Array? && v.kind.size >= WIDE then Some(Counted(RedactedPath(v.path, rules), v.kind.size)) else None
  }

  function LongFinding(v: Visit, rules: Rules): Option<Finding> {
    if v.kind.StringKind? && (v.kind.bucket.Long? || v.kind.bucket.VeryLong?)
    then Some(Bucketed(RedactedPath(v.path, rules), v.kind.bucket)) else None
  }

  function NoisyFinding(v: Visit, rules: Rules): Option<Finding> {
    if !v.kind.Array? && Noisy(KeyOf(v.path, rules), rules.noisyTokens)
    then Some(Keyed(RedactedPath(v.path, rules), KeyOf(v.path, rules))) else None
  }

  function WithFinding(list: seq<Finding>, f: Option<Finding>): seq<Finding> {
    if f.Some? then Capped(list, f.value, MAX_FINDINGS) else list
  }

  function Deeper(depth: nat, v: Visit): nat {
    if |v.path| > depth then |v.path| else depth
  }

  function StringCounted(c: Counts, bucket: Bucket): Counts {
    var d := c.(scalars := c.scalars + 1, strings := c.strings + 1);
    match bucket
    case Short => d.(short := c.short + 1)
    case Medium => d.(medium := c.medium + 1)
    case Long => d.(long := c.long + 1)
    case VeryLong => d.(veryLong := c.veryLong + 1)
  }

  function CountedIn(c: Counts, v: Visit): Counts {
    match v.kind
    case Object(_) => c.(objects := c.objects + 1)
    case Array(_) => c.(arrays := c.arrays + 1)
    case NullKind => c.(scalars := c.scalars + 1, nulls := c.nulls + 1)
    case BooleanKind => c.(scalars := c.scalars + 1, booleans := c.booleans + 1)
    case NumberKind => c.(scalars := c.scalars + 1, numbers := c.numbers + 1)
    case StringKind(bucket) => StringCounted(c, bucket)
  }

  function ListedIn(l: Lists, v: Visit, rules: Rules): Lists {
    Lists(WithPath(l.paths, RedactedPath(v.path, rules)),
          WithFinding(l.largeArrays, LargeFinding(v, rules)),
          WithFinding(l.wideObjects, WideFinding(v, rules)),
          WithFinding(l.longStrings, LongFinding(v, rules)),
          WithFinding(l.noisyPaths, NoisyFinding(v, rules)),
          WithFinding(l.entityCollections, EntityFinding(v, rules)))
  }

  function Listing(rules: Rules): (Lists, Visit) -> Lists {
    (l, v) => ListedIn(l, v, rules)
  }

  function Fold<S>(s: S, visits: seq<Visit>, step: (S, Visit) -> S): S {
    if visits == [] then s else step(Fold(s, visits[..|visits| - 1], step), visits[|visits| - 1])
  }

  /** The summary after some more nodes. */
  function Noted(s: Summary, visits: seq<Visit>, rules: Rules): Summary {
    Summary(Fold(s.maxDepth, visits, Deeper), Fold(s.counts, visits, CountedIn), Fold(s.lists, visits, Listing(rules)))
  }

  /** a <= b, by code points */
  predicate AtMost(a: string, b: string) {
    a == "" || (b != "" && (a[0] < b[0] || (a[0] == b[0] && AtMost(a[1..], b[1..]))))
  }

  function InsertPath(sorted: seq<string>, path: string): seq<string> {
    if sorted == [] || AtMost(path, sorted[0]) then [path] + sorted else [sorted[0]] + InsertPath(sorted[1..], path)
  }

  /** sorted(paths) */
  function SortPaths(paths: seq<string>): seq<string> {
    if paths == [] then [] else InsertPath(SortPaths(paths[..|paths| - 1]), paths[|paths| - 1])
  }

  function WithSortedPaths(s: Summary): Summary {
    s.(lists := s.lists.(paths := SortPaths(s.lists.paths)))
  }

  /** summarize_payload_shape */
  function Shape(t: Tree, rules: Rules): Summary {
    WithSortedPaths(Noted(EMPTY, Visits(t, []), rules))
  }

  lemma {:induction false} FoldAppend<S>(s: S, a: seq<Visit>, b: seq<Visit>, step: (S, Visit) -> S)
    ensures Fold(s, a + b, step) == Fold(Fold(s, a, step), b, step)
    decreases |b|
  {
    if b == [] {
      assert a + b == a;
    } else {
      assert (a + b)[..|a| + |b| - 1] == a + b[..|b| - 1];
      FoldAppend(s, a, b[..|b| - 1], step);
    }
  }

  lemma NotedAppend(s: Summary, a: seq<Visit>, b: seq<Visit>, rules: Rules)
    ensures Noted(s, a + b, rules) == Noted(Noted(s, a, rules), b, rules)
  {
    FoldAppend(s.maxDepth, a, b, Deeper);
    FoldAppend(s.counts, a, b, CountedIn);
    FoldAppend(s.lists, a, b, Listing(rules));
  }

  lemma NotedOne(s: Summary, v: Visit, rules: Rules)
    ensures Noted(s, [v], rules) == Summary(Deeper(s.maxDepth, v), CountedIn(s.counts, v), ListedIn(s.lists, v, rules))
  {
    FoldOne(s.maxDepth, v, Deeper);
    FoldOne(s.counts, v, CountedIn);
    FoldOne(s.lists, v, Listing(rules));
  }

  lemma FoldOne<S>(s: S, v: Visit, step: (S, Visit) -> S)
    ensures Fold(s, [v], step) == step(s, v)
  {
    assert [v][..0] == [];
    assert Fold(s, [v][..0], step) == s;
  }

  lemma EntryStep(s: Summary, t: Tree, path: seq<string>, i: nat, rules: Rules)
    requires t.Obj? && i < |t.entries|
    ensures Noted(s, EntryVisits(t, path, i + 1), rules)
         == Noted(Noted(s, EntryVisits(t, path, i), rules), Visits(t.entries[i].value, path + [t.entries[i].key]), rules)
  {
    NotedAppend(s, EntryVisits(t, path, i), Visits(t.entries[i].value, path + [t.entries[i].key]), rules);
  }

  lemma ItemStep(s: Summary, t: Tree, path: seq<string>, i: nat, rules: Rules)
    requires t.Arr? && i < |t.items|
    ensures Noted(s, ItemVisits(t, path, i + 1), rules)
         == Noted(Noted(s, ItemVisits(t, path, i), rules), Visits(t.items[i], path + [ItemSegment(t.items[i], i)]), rules)
  {
    NotedAppend(s, ItemVisits(t, path, i), Visits(t.items[i], path + [ItemSegment(t.items[i], i)]), rules);
  }

  // ------------------------------------------------------------------
  // The walk
  // ------------------------------------------------------------------

  /** The shared summary, and the recursive walk that fills it in place. */
  class Audit {
    var maxDepth: nat
    var counts: Counts
    var lists: Lists

    constructor ()
      ensures Contents() == EMPTY
    {
      maxDepth, counts, lists := EMPTY.maxDepth, EMPTY.counts, EMPTY.lists;
    }

    function Contents(): Summary
      reads this
    {
      Summary(maxDepth, counts, lists)
    }

    /** add_path */
    method AddPath(path: seq<string>, rules: Rules) returns (redacted: string)
      modifies this`lists
      ensures redacted == RedactedPath(path, rules)
      ensures lists == old(lists).(paths := WithPath(old(lists).paths, redacted))
    {
      redacted := RedactedPath(path, rules);
      if redacted !in lists.paths && |lists.paths| < MAX_PATHS {
        lists := lists.(paths := lists.paths + [redacted]);
      }
    }

    /** add_finding, on one of the lists */
    static method AddFinding(list: seq<Finding>, f: Finding) returns (r: seq<Finding>)
      ensures r == Capped(list, f, MAX_FINDINGS)
    {
      r := list;
      if |list| < MAX_FINDINGS { r := list + [f]; }
    }

    method EnterObject(v: Visit, redacted: string, rules: Rules)
      requires v.kind.Object? && redacted == RedactedPath(v.path, rules)
      modifies this`counts, this`lists
      ensures counts == CountedIn(old(counts), v)
      ensures lists == ListedIn(old(lists), v, rules).(paths := old(lists).paths)
    {
      var key := KeyOf(v.path, rules);
      var entities, wide, noisy := lists.entityCollections, lists.wideObjects, lists.noisyPaths;
      counts := counts.(objects := counts.objects + 1);
      if key in rules.structuralKeys { entities := AddFinding(entities, Counted(redacted, v.kind.size)); }
      if v.kind.size >= WIDE { wide := AddFinding(wide, Counted(redacted, v.kind.size)); }
      if Noisy(key, rules.noisyTokens) { noisy := AddFinding(noisy, Keyed(redacted, key)); }
      lists := lists.(entityCollections := entities, wideObjects := wide, noisyPaths := noisy);
    }

    method EnterArray(v: Visit, redacted: string, rules: Rules)
      requires v.kind.Array? && redacted == RedactedPath(v.path, rules)
      modifies this`counts, this`lists
      ensures counts == CountedIn(old(counts), v)
      ensures lists == ListedIn(old(lists), v, rules).(paths := old(lists).paths)
    {
      counts := counts.(arrays := counts.arrays + 1);
      if v.kind.size >= WIDE {
        var large := AddFinding(lists.largeArrays, Counted(redacted, v.kind.size));
        lists := lists.(largeArrays := large);
      }
    }

    method EnterScalar(v: Visit, redacted: string, rules: Rules)
      requires !v.kind.Object? && !v.kind.Array? && redacted == RedactedPath(v.path, rules)
      modifies this`counts, this`lists
      ensures counts == CountedIn(old(counts), v)
      ensures lists == ListedIn(old(lists), v, rules).(paths := old(lists).paths)
    {
      var key := KeyOf(v.path, rules);
      var texts, noisy := lists.longStrings, lists.noisyPaths;
      match v.kind {
        case NullKind => counts := counts.(scalars := counts.scalars + 1, nulls := counts.nulls + 1);
        case BooleanKind => counts := counts.(scalars := counts.scalars + 1, booleans := counts.booleans + 1);
        case NumberKind => counts := counts.(scalars := counts.scalars + 1, numbers := counts.numbers + 1);
        case StringKind(bucket) =>
          counts := StringCounted(counts, bucket);
          if bucket.Long? || bucket.VeryLong? { texts := AddFinding(texts, Bucketed(redacted, bucket)); }
      }
      if Noisy(key, rules.noisyTokens) { noisy := AddFinding(noisy, Keyed(redacted, key)); }
      lists := lists.(longStrings := texts, noisyPaths := noisy);
    }

    /** What the walk does at a node before it goes on to the children. */
    method Enter(v: Visit, rules: Rules)
      modifies this
      ensures Contents() == Noted(old(Contents()), [v], rules)
    {
      NotedOne(Contents(), v, rules);
      if |v.path| > maxDepth { maxDepth := |v.path|; }
      var redacted := AddPath(v.path, rules);
      if v.kind.Object? {
        EnterObject(v, redacted, rules);
      } else if v.kind.Array? {
        EnterArray(v, redacted, rules);
      } else {
        EnterScalar(v, redacted, rules);
      }
    }

    method Walk(t: Tree, path: seq<string>, rules: Rules)
      modifies this
      ensures Contents() == Noted(old(Contents()), Visits(t, path), rules)
      decreases t
    {
      Enter(Visit(path, KindOf(t)), rules);
      match t {
        case Obj(entries) =>
          NotedAppend(old(Contents()), [Visit(path, KindOf(t))], EntryVisits(t, path, |entries|), rules);
          WalkEntries(t, path, rules);
        case Arr(items) =>
          NotedAppend(old(Contents()), [Visit(path, KindOf(t))], ItemVisits(t, path, Walked(items)), rules);
          WalkItems(t, path, rules);
        case _ => assert Visits(t, path) == [Visit(path, KindOf(t))];
      }
    }

    method WalkEntries(t: Tree, path: seq<string>, rules: Rules)
      requires t.Obj?
      modifies this
      ensures Contents() == Noted(old(Contents()), EntryVisits(t, path, |t.entries|), rules)
      decreases t, 0
    {
      for i := 0 to |t.entries|
        invariant Contents() == Noted(old(Contents()), EntryVisits(t, path, i), rules)
      {
        EntryStep(old(Contents()), t, path, i, rules);
        Walk(t.entries[i].value, path + [t.entries[i].key], rules);
      }
    }

    method WalkItems(t: Tree, path: seq<string>, rules: Rules)
      requires t.Arr?
      modifies this
      ensures Contents() == Noted(old(Contents()), ItemVisits(t, path, Walked(t.items)), rules)
      decreases t, 0
    {
      for i := 0 to Walked(t.items)
        invariant Contents() == Noted(old(Contents()), ItemVisits(t, path, i), rules)
      {
        ItemStep(old(Contents()), t, path, i, rules);
        Walk(t.items[i], path + [ItemSegment(t.items[i], i)], rules);
      }
    }
  }

  /** summarize_payload_shape */
  method Summarize(t: Tree, lower: string -> string, digit: char -> bool) returns (shape: Summary)
    ensures shape == Shape(t, AuditRules(lower, digit))
  {
    var audit := new Audit();
    audit.Walk(t, [], AuditRules(lower, digit));
    shape := WithSortedPaths(audit.Contents());
  }

  // ------------------------------------------------------------------
  // Conservation
  // ------------------------------------------------------------------

  /** The counters of n nodes agree with each other in each breakdown. */
  ghost predicate Balanced(c: Counts, n: nat) {
    && c.objects + c.arrays + c.scalars == n
    && c.strings + c.numbers + c.booleans + c.nulls == c.scalars
    && c.short + c.medium + c.long + c.veryLong == c.strings
  }

  lemma {:induction false} FoldBalances(visits: seq<Visit>)
    ensures Balanced(Fold(EMPTY.counts, visits, CountedIn), |visits|)
  {
    if visits != [] {
      var before := visits[..|visits| - 1];
      FoldBalances(before);
      StepBalances(Fold(EMPTY.counts, before, CountedIn), visits[|visits| - 1], |before|);
    }
  }

  lemma StringBalances(c: Counts, bucket: Bucket, n: nat)
    requires Balanced(c, n)
    ensures Balanced(StringCounted(c, bucket), n + 1)
  {
  }

  lemma StepBalances(c: Counts, v: Visit, n: nat)
    requires Balanced(c, n)
    ensures Balanced(CountedIn(c, v), n + 1)
  {
    match v.kind {
      case StringKind(bucket) =>
        StringBalances(c, bucket, n);
        assert CountedIn(c, v) == StringCounted(c, bucket);
      case _ =>
    }
  }

  /** Every node walked is counted exactly once, in each breakdown. */
  lemma NothingIsLost(t: Tree, rules: Rules)
    ensures Balanced(Shape(t, rules).counts, |Visits(t, [])|)
  {
    FoldBalances(Visits(t, []));
  }

  // ------------------------------------------------------------------
  // Caps and contents of the lists
  // ------------------------------------------------------------------

  predicate NoRepeats(paths: seq<string>) {
    forall i, j :: 0 <= i < j < |paths| ==> paths[i] != paths[j]
  }

  lemma WithPathKeeps(paths: seq<string>, path: string)
    requires NoRepeats(paths) && |paths| <= MAX_PATHS
    ensures NoRepeats(WithPath(paths, path)) && |paths| <= |WithPath(paths, path)| <= MAX_PATHS
    ensures forall p :: p in paths ==> p in WithPath(paths, path)
    ensures forall p :: p in WithPath(paths, path) ==> p in paths || p == path
    ensures |WithPath(paths, path)| < MAX_PATHS ==> path in WithPath(paths, path)
  {
  }

  predicate WasVisited(visits: seq<Visit>, path: string, rules: Rules) {
    exists i :: 0 <= i < |visits| && RedactedPath(visits[i].path, rules) == path
  }

  lemma VisitedLater(before: seq<Visit>, v: Visit, path: string, rules: Rules)
    ensures WasVisited(before + [v], path, rules)
       <==> WasVisited(before, path, rules) || RedactedPath(v.path, rules) == path
  {
    var visits := before + [v];
    assert visits[|before|] == v;
    if i :| 0 <= i < |before| && RedactedPath(before[i].path, rules) == path { assert visits[i] == before[i]; }
  }

  /** The listed paths are different redacted paths of visited nodes, never more than 240; below
      that bound none is missing. */
  ghost predicate PathsFit(paths: seq<string>, visits: seq<Visit>, rules: Rules) {
    && NoRepeats(paths) && |paths| <= 240
    && (forall p :: p in paths ==> WasVisited(visits, p, rules))
    && (|paths| < 240 ==> forall p :: WasVisited(visits, p, rules) ==> p in paths)
  }

  lemma PathsFitNext(paths: seq<string>, before: seq<Visit>, v: Visit, rules: Rules)
    requires PathsFit(paths, before, rules)
    ensures PathsFit(WithPath(paths, RedactedPath(v.path, rules)), before + [v], rules)
  {
    var path := RedactedPath(v.path, rules);
    WithPathKeeps(paths, path);
    forall p ensures WasVisited(before + [v], p, rules) <==> WasVisited(before, p, rules) || path == p {
      VisitedLater(before, v, p, rules);
    }
  }

  lemma PathsFold(before: seq<Visit>, v: Visit, rules: Rules)
    ensures Fold(EMPTY.lists, before + [v], Listing(rules)).paths
         == WithPath(Fold(EMPTY.lists, before, Listing(rules)).paths, RedactedPath(v.path, rules))
  {
    FoldAppend(EMPTY.lists, before, [v], Listing(rules));
    FoldOne(Fold(EMPTY.lists, before, Listing(rules)), v, Listing(rules));
  }

  lemma {:induction false} FoldPathsFit(visits: seq<Visit>, rules: Rules)
    ensures PathsFit(Fold(EMPTY.lists, visits, Listing(rules)).paths, visits, rules)
  {
    if visits != [] {
      var before, v := visits[..|visits| - 1], visits[|visits| - 1];
      assert visits == before + [v];
      PathsFold(before, v, rules);
      FoldPathsFit(before, rules);
      PathsFitNext(Fold(EMPTY.lists, before, Listing(rules)).paths, before, v, rules);
    }
  }

  predicate InOrder(paths: seq<string>) {
    forall i, j :: 0 <= i < j < |paths| ==> AtMost(paths[i], paths[j])
  }

  lemma {:induction false} AtMostTotal(a: string, b: string)
    ensures AtMost(a, b) || AtMost(b, a)
  {
    if a != "" && b != "" && a[0] == b[0] { AtMostTotal(a[1..], b[1..]); }
  }

  lemma {:induction false} AtMostTransitive(a: string, b: string, c: string)
    requires AtMost(a, b) && AtMost(b, c)
    ensures AtMost(a, c)
  {
    if a != "" && a[0] == b[0] && b[0] == c[0] { AtMostTransitive(a[1..], b[1..], c[1..]); }
  }

  lemma {:induction false} InsertHolds(sorted: seq<string>, path: string)
    ensures multiset(InsertPath(sorted, path)) == multiset(sorted) + multiset{path}
  {
    if sorted != [] && !AtMost(path, sorted[0]) {
      InsertHolds(sorted[1..], path);
      assert sorted == [sorted[0]] + sorted[1..];
    }
  }

  lemma {:induction false} InsertKeepsOrder(sorted: seq<string>, path: string)
    requires InOrder(sorted)
    ensures InOrder(InsertPath(sorted, path))
  {
    var result := InsertPath(sorted, path);
    if sorted != [] {
      if AtMost(path, sorted[0]) {
        forall j | 0 <= j < |sorted| ensures AtMost(path, sorted[j]) {
          if j > 0 { AtMostTransitive(path, sorted[0], sorted[j]); }
        }
      } else {
        AtMostTotal(path, sorted[0]);
        InsertKeepsOrder(sorted[1..], path);
        InsertHolds(sorted[1..], path);
        forall j | 1 <= j < |result| ensures AtMost(sorted[0], result[j]) {
          assert result[j] in multiset(InsertPath(sorted[1..], path));
          if result[j] != path {
            assert result[j] in sorted[1..];
            var i :| 0 <= i < |sorted[1..]| && sorted[1..][i] == result[j];
          }
        }
      }
    }
  }

  /** The sorted list is the list in order. */
  lemma {:induction false} SortPathsMeaning(paths: seq<string>)
    ensures InOrder(SortPaths(paths)) && multiset(SortPaths(paths)) == multiset(paths)
  {
    if paths != [] {
      var before, last := paths[..|paths| - 1], paths[|paths| - 1];
      SortPathsMeaning(before);
      InsertKeepsOrder(SortPaths(before), last);
      InsertHolds(SortPaths(before), last);
      assert paths == before + [last];
    }
  }

  lemma {:induction false} NoRepeatsMeaning(paths: seq<string>)
    ensures NoRepeats(paths) <==> forall p :: p in paths ==> multiset(paths)[p] == 1
  {
    if paths != [] {
      var before, last := paths[..|paths| - 1], paths[|paths| - 1];
      assert paths == before + [last];
      NoRepeatsMeaning(before);
      if !NoRepeats(paths) && NoRepeats(before) {
        var i :| 0 <= i < |before| && before[i] == last;
        assert last in before && multiset(paths)[last] >= 2;
      }
      if NoRepeats(paths) {
        assert NoRepeats(before) && last !in before;
      } else if !NoRepeats(before) {
        var p :| p in before && multiset(before)[p] != 1;
        assert p in paths && multiset(paths)[p] > 1;
      }
    }
  }

  lemma SortingFits(paths: seq<string>, visits: seq<Visit>, rules: Rules)
    requires PathsFit(paths, visits, rules)
    ensures PathsFit(SortPaths(paths), visits, rules)
  {
    var sorted := SortPaths(paths);
    SortPathsMeaning(paths);
    NoRepeatsMeaning(paths);
    NoRepeatsMeaning(sorted);
    forall p ensures p in sorted <==> p in paths {
      assert p in sorted <==> p in multiset(sorted);
      assert p in paths <==> p in multiset(paths);
    }
    assert |sorted| == |multiset(sorted)| && |paths| == |multiset(paths)|;
  }

  /** The paths of the summary fit what was visited, and are sorted. */
  lemma PathsAreVisited(t: Tree, rules: Rules)
    ensures PathsFit(Shape(t, rules).lists.paths, Visits(t, []), rules) && InOrder(Shape(t, rules).lists.paths)
  {
    FoldPathsFit(Visits(t, []), rules);
    var paths := Noted(EMPTY, Visits(t, []), rules).lists.paths;
    SortingFits(paths, Visits(t, []), rules);
    SortPathsMeaning(paths);
  }

  /** max_depth is the length of the longest path visited. */
  lemma {:induction false} DepthIsMaximum(visits: seq<Visit>)
    ensures forall i :: 0 <= i < |visits| ==> |visits[i].path| <= Fold(0, visits, Deeper)
    ensures Fold(0, visits, Deeper) > 0 ==> exists i :: 0 <= i < |visits| && |visits[i].path| == Fold(0, visits, Deeper)
  {
    if visits != [] {
      var before := visits[..|visits| - 1];
      DepthIsMaximum(before);
      forall i | 0 <= i < |visits| ensures |visits[i].path| <= Fold(0, visits, Deeper) {
        if i < |before| { assert visits[i] == before[i]; }
      }
      if Fold(0, before, Deeper) > 0 && Fold(0, before, Deeper) == Fold(0, visits, Deeper) {
        var i :| 0 <= i < |before| && |before[i].path| == Fold(0, before, Deeper);
        assert |visits[i].path| == Fold(0, visits, Deeper);
      }
    }
  }

  function First<T>(list: seq<T>, max: nat): seq<T> {
    if |list| <= max then list else list[..max]
  }

  /** All the findings of one sort, without any cap. */
  function Collected(visits: seq<Visit>, finding: Visit -> Option<Finding>): seq<Finding> {
    if visits == [] then []
    else
      var f := finding(visits[|visits| - 1]);
      Collected(visits[..|visits| - 1], finding) + (if f.Some? then [f.value] else [])
  }

  lemma CapFirst(all: seq<Finding>, f: Option<Finding>)
    ensures WithFinding(First(all, MAX_FINDINGS), f) == First(all + (if f.Some? then [f.value] else []), MAX_FINDINGS)
  {
  }

  /** Each list of findings is exactly the first 80 of its findings. */
  lemma {:induction false} FindingsAreFirst(visits: seq<Visit>, rules: Rules)
    ensures var l := Fold(EMPTY.lists, visits, Listing(rules));
            && l.largeArrays == First(Collected(visits, v => LargeFinding(v, rules)), 80)
            && l.wideObjects == First(Collected(visits, v => WideFinding(v, rules)), 80)
            && l.longStrings == First(Collected(visits, v => LongFinding(v, rules)), 80)
            && l.noisyPaths == First(Collected(visits, v => NoisyFinding(v, rules)), 80)
            && l.entityCollections == First(Collected(visits, v => EntityFinding(v, rules)), 80)
  {
    if visits != [] {
      var before, v := visits[..|visits| - 1], visits[|visits| - 1];
      FindingsAreFirst(before, rules);
      CapFirst(Collected(before, v => LargeFinding(v, rules)), LargeFinding(v, rules));
      CapFirst(Collected(before, v => WideFinding(v, rules)), WideFinding(v, rules));
      CapFirst(Collected(before, v => LongFinding(v, rules)), LongFinding(v, rules));
      CapFirst(Collected(before, v => NoisyFinding(v, rules)), NoisyFinding(v, rules));
      CapFirst(Collected(before, v => EntityFinding(v, rules)), EntityFinding(v, rules));
    }
  }

  // ------------------------------------------------------------------
  // What the summary hides
  // ------------------------------------------------------------------

  /** Equal but for the values of scalars: scalars agree in their kind, and strings in the bucket
      of their length; array items beyond the hundredth may differ altogether. */
  predicate SameShape(a: Tree, b: Tree) {
    && KindOf(a) == KindOf(b)
    && (a.Obj? ==> forall i :: 0 <= i < |a.entries| ==>
          a.entries[i].key == b.entries[i].key && SameShape(a.entries[i].value, b.entries[i].value))
    && (a.Arr? ==> forall i :: 0 <= i < Walked(a.items) ==> SameShape(a.items[i], b.items[i]))
  }

  lemma {:induction false} SameVisits(a: Tree, b: Tree, path: seq<string>)
    requires SameShape(a, b)
    ensures Visits(a, path) == Visits(b, path)
    decreases a, 1, 0
  {
    match a {
      case Obj(entries) => SameEntryVisits(a, b, path, |entries|);
      case Arr(items) => SameItemVisits(a, b, path, Walked(items));
      case _ =>
    }
  }

  lemma {:induction false} SameEntryVisits(a: Tree, b: Tree, path: seq<string>, n: nat)
    requires a.Obj? && SameShape(a, b) && n <= |a.entries|
    ensures EntryVisits(a, path, n) == EntryVisits(b, path, n)
    decreases a, 0, n
  {
    if n > 0 {
      SameEntryVisits(a, b, path, n - 1);
      SameVisits(a.entries[n - 1].value, b.entries[n - 1].value, path + [a.entries[n - 1].key]);
    }
  }

  lemma {:induction false} SameItemVisits(a: Tree, b: Tree, path: seq<string>, n: nat)
    requires a.Arr? && SameShape(a, b) && n <= Walked(a.items)
    ensures ItemVisits(a, path, n) == ItemVisits(b, path, n)
    decreases a, 0, n
  {
    if n > 0 {
      SameItemVisits(a, b, path, n - 1);
      SameVisits(a.items[n - 1], b.items[n - 1], path + [ItemSegment(a.items[n - 1], n - 1)]);
    }
  }

  /** The summary never tells apart two payloads that differ only in the values of scalars. */
  lemma ValuesAreHidden(a: Tree, b: Tree, rules: Rules)
    requires SameShape(a, b)
    ensures Shape(a, rules) == Shape(b, rules)
  {
    SameVisits(a, b, []);
  }

  predicate Placeholder(part: string) {
    part == "{item}" || part == "{email}" || part == "{id}" || part == "{key}"
  }

  /** A part shown as it is: short, no address, no hexadecimal id, no run of four digits. */
  ghost predicate Plain(part: string, rules: Rules) {
    && (exists text :: part == rules.lower(text) && text != "" && |text| <= 40 && '@' !in text)
    && !IsHexId(part) && !HasDigitRun(part, rules)
  }

  /** Every part of a redacted path is a placeholder or plain. */
  lemma {:induction false} PartsAreRedacted(path: seq<string>, rules: Rules)
    ensures forall part :: part in RedactedParts(path, rules) ==> Placeholder(part) || Plain(part, rules)
  {
    if path != [] {
      var n := |path| - 1;
      PartsAreRedacted(path[..n], rules);
      SegmentIsRedacted(path[n], if n == 0 then None else Some(rules.lower(path[n - 1])), rules);
    }
  }

  lemma SegmentIsRedacted(segment: string, parent: Option<string>, rules: Rules)
    ensures var part := RedactSegment(segment, parent, rules);
            part == "" || Placeholder(part) || Plain(part, rules)
  {
  }
}

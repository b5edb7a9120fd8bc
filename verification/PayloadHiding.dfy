/** What the audit of a payload's shape hides and what it shows of the keys of data, which are
    those below a structural key (scripts/audit_active_pkm_shape_readonly.py). */
module PayloadHiding {
  import opened Text
  import opened PayloadShape

  // ------------------------------------------------------------------
  // Which keys the summary hides
  // ------------------------------------------------------------------

  predicate IsStructural(segment: string, rules: Rules) {
    rules.lower(segment) in rules.structuralKeys
  }

  /** The path ends at a structural key, whose own keys name data. */
  predicate EndsStructural(path: seq<string>, rules: Rules) {
    path != [] && IsStructural(path[|path| - 1], rules)
  }

  /** Two keys of data that the summary does not tell apart: both blank or neither, both
      structural or neither, and either both free of noisy words or the same in lower case. */
  predicate Alike(a: string, b: string, rules: Rules) {
    && (Strip(a) == "" <==> Strip(b) == "")
    && (IsStructural(a, rules) <==> IsStructural(b, rules))
    && (Noisy(rules.lower(a), rules.noisyTokens) <==> Noisy(rules.lower(b), rules.noisyTokens))
    && (Noisy(rules.lower(a), rules.noisyTokens) ==> rules.lower(a) == rules.lower(b))
  }

  /** Paths that differ only in keys of data that are alike. */
  predicate SamePath(p: seq<string>, q: seq<string>, rules: Rules) {
    && |p| == |q|
    && (p != [] ==>
          var n := |p| - 1;
          && SamePath(p[..n], q[..n], rules)
          && (p[n] == q[n] || (EndsStructural(p[..n], rules) && Alike(p[n], q[n], rules))))
  }

  lemma SameEnds(p: seq<string>, q: seq<string>, rules: Rules)
    requires SamePath(p, q, rules)
    ensures EndsStructural(p, rules) <==> EndsStructural(q, rules)
  {
  }

  lemma SegmentRedactsAlike(a: string, b: string, pa: Option<string>, pb: Option<string>, rules: Rules)
    requires pa.Some? <==> pb.Some?
    requires pa.Some? ==> (pa.value in rules.structuralKeys <==> pb.value in rules.structuralKeys)
    requires a == b || (pa.Some? && pa.value in rules.structuralKeys && Alike(a, b, rules))
    ensures RedactSegment(a, pa, rules) == RedactSegment(b, pb, rules)
  {
  }

  lemma {:induction false} PathRedactsAlike(p: seq<string>, q: seq<string>, rules: Rules)
    requires SamePath(p, q, rules)
    ensures RedactedParts(p, rules) == RedactedParts(q, rules)
  {
    if p != [] {
      var n := |p| - 1;
      PathRedactsAlike(p[..n], q[..n], rules);
      SameEnds(p[..n], q[..n], rules);
      SegmentRedactsAlike(p[n], q[n], if n == 0 then None else Some(rules.lower(p[n - 1])),
                          if n == 0 then None else Some(rules.lower(q[n - 1])), rules);
    }
  }

  lemma KeysTreatedAlike(p: seq<string>, q: seq<string>, rules: Rules)
    requires SamePath(p, q, rules)
    ensures KeyOf(p, rules) in rules.structuralKeys <==> KeyOf(q, rules) in rules.structuralKeys
    ensures Noisy(KeyOf(p, rules), rules.noisyTokens) <==> Noisy(KeyOf(q, rules), rules.noisyTokens)
    ensures Noisy(KeyOf(p, rules), rules.noisyTokens) ==> KeyOf(p, rules) == KeyOf(q, rules)
  {
    if p != [] {
      var n := |p| - 1;
      assert p[n] == q[n] || Alike(p[n], q[n], rules);
    }
  }

  lemma VisitListedAlike(l: Lists, v: Visit, w: Visit, rules: Rules)
    requires v.kind == w.kind && SamePath(v.path, w.path, rules)
    ensures ListedIn(l, v, rules) == ListedIn(l, w, rules)
  {
    PathRedactsAlike(v.path, w.path, rules);
    KeysTreatedAlike(v.path, w.path, rules);
  }

  /** The summary after one more node. */
  function Step(s: Summary, v: Visit, rules: Rules): Summary {
    Summary(Deeper(s.maxDepth, v), CountedIn(s.counts, v), ListedIn(s.lists, v, rules))
  }

  /** One node is noted in the same way under either path. */
  lemma VisitNotedAlike(s: Summary, v: Visit, w: Visit, rules: Rules)
    requires v.kind == w.kind && SamePath(v.path, w.path, rules)
    ensures Step(s, v, rules) == Step(s, w, rules)
  {
    VisitListedAlike(s.lists, v, w, rules);
    assert CountedIn(s.counts, v) == CountedIn(s.counts, w);
  }

  ghost predicate VisitsAlike(a: seq<Visit>, b: seq<Visit>, rules: Rules) {
    |a| == |b| && forall i :: 0 <= i < |a| ==> a[i].kind == b[i].kind && SamePath(a[i].path, b[i].path, rules)
  }

  lemma NotedLast(s: Summary, before: seq<Visit>, v: Visit, rules: Rules)
    ensures Noted(s, before + [v], rules) == Step(Noted(s, before, rules), v, rules)
  {
    NotedAppend(s, before, [v], rules);
    NotedOne(Noted(s, before, rules), v, rules);
  }

  lemma {:induction false} VisitsNotedAlike(s: Summary, a: seq<Visit>, b: seq<Visit>, rules: Rules)
    requires VisitsAlike(a, b, rules)
    ensures Noted(s, a, rules) == Noted(s, b, rules)
  {
    if a == [] {
      assert a == b;
    } else {
      var n := |a| - 1;
      assert a == a[..n] + [a[n]] && b == b[..n] + [b[n]];
      VisitsNotedAlike(s, a[..n], b[..n], rules);
      LastNotedAlike(s, a[..n], b[..n], a[n], b[n], rules);
    }
  }

  lemma LastNotedAlike(s: Summary, a: seq<Visit>, b: seq<Visit>, v: Visit, w: Visit, rules: Rules)
    requires Noted(s, a, rules) == Noted(s, b, rules) && v.kind == w.kind && SamePath(v.path, w.path, rules)
    ensures Noted(s, a + [v], rules) == Noted(s, b + [w], rules)
  {
    NotedLast(s, a, v, rules);
    NotedLast(s, b, w, rules);
    VisitNotedAlike(Noted(s, a, rules), v, w, rules);
  }

  /** Trees that differ only in the values of scalars and in alike keys of data. `below` says
      whether the tree stands under a structural key. */
  predicate Disguised(a: Tree, b: Tree, below: bool, rules: Rules)
    decreases a
  {
    && KindOf(a) == KindOf(b)
    && (a.Obj? ==> forall i :: 0 <= i < |a.entries| ==>
          && (a.entries[i].key == b.entries[i].key || (below && Alike(a.entries[i].key, b.entries[i].key, rules)))
          && Disguised(a.entries[i].value, b.entries[i].value, IsStructural(a.entries[i].key, rules), rules))
    && (a.Arr? ==> forall i :: 0 <= i < Walked(a.items) ==>
          Disguised(a.items[i], b.items[i], IsStructural(ItemSegment(a.items[i], i), rules), rules))
  }

  lemma SamePathExtends(p: seq<string>, q: seq<string>, a: string, b: string, rules: Rules)
    requires SamePath(p, q, rules)
    requires a == b || (EndsStructural(p, rules) && Alike(a, b, rules))
    ensures SamePath(p + [a], q + [b], rules)
  {
    assert (p + [a])[..|p|] == p && (q + [b])[..|q|] == q;
  }

  lemma VisitsAlikeAppend(a: seq<Visit>, b: seq<Visit>, c: seq<Visit>, d: seq<Visit>, rules: Rules)
    requires VisitsAlike(a, b, rules) && VisitsAlike(c, d, rules)
    ensures VisitsAlike(a + c, b + d, rules)
  {
  }

  lemma {:induction false} DisguisedVisits(a: Tree, b: Tree, p: seq<string>, q: seq<string>, rules: Rules)
    requires SamePath(p, q, rules) && Disguised(a, b, EndsStructural(p, rules), rules)
    ensures VisitsAlike(Visits(a, p), Visits(b, q), rules)
    decreases a, 1, 0
  {
    var here, there := [Visit(p, KindOf(a))], [Visit(q, KindOf(b))];
    assert VisitsAlike(here, there, rules);
    match a {
      case Obj(entries) =>
        DisguisedEntries(a, b, p, q, |entries|, rules);
        VisitsAlikeAppend(here, there, EntryVisits(a, p, |entries|), EntryVisits(b, q, |entries|), rules);
      case Arr(items) =>
        DisguisedItems(a, b, p, q, Walked(items), rules);
        VisitsAlikeAppend(here, there, ItemVisits(a, p, Walked(items)), ItemVisits(b, q, Walked(items)), rules);
      case _ =>
        assert Visits(a, p) == here && Visits(b, q) == there;
    }
  }

  lemma {:induction false} DisguisedEntries(a: Tree, b: Tree, p: seq<string>, q: seq<string>, n: nat, rules: Rules)
    requires a.Obj? && SamePath(p, q, rules) && Disguised(a, b, EndsStructural(p, rules), rules) && n <= |a.entries|
    ensures VisitsAlike(EntryVisits(a, p, n), EntryVisits(b, q, n), rules)
    decreases a, 0, n
  {
    if n > 0 {
      var x, y := a.entries[n - 1], b.entries[n - 1];
      DisguisedEntries(a, b, p, q, n - 1, rules);
      SamePathExtends(p, q, x.key, y.key, rules);
      DisguisedVisits(x.value, y.value, p + [x.key], q + [y.key], rules);
      VisitsAlikeAppend(EntryVisits(a, p, n - 1), EntryVisits(b, q, n - 1),
                        Visits(x.value, p + [x.key]), Visits(y.value, q + [y.key]), rules);
    }
  }

  lemma {:induction false} DisguisedItems(a: Tree, b: Tree, p: seq<string>, q: seq<string>, n: nat, rules: Rules)
    requires a.Arr? && SamePath(p, q, rules) && Disguised(a, b, EndsStructural(p, rules), rules) && n <= Walked(a.items)
    ensures VisitsAlike(ItemVisits(a, p, n), ItemVisits(b, q, n), rules)
    decreases a, 0, n
  {
    if n > 0 {
      var x, y := a.items[n - 1], b.items[n - 1];
      var segment := ItemSegment(x, n - 1);
      assert ItemSegment(y, n - 1) == segment;
      DisguisedItems(a, b, p, q, n - 1, rules);
      SamePathExtends(p, q, segment, segment, rules);
      DisguisedVisits(x, y, p + [segment], q + [segment], rules);
      VisitsAlikeAppend(ItemVisits(a, p, n - 1), ItemVisits(b, q, n - 1),
                        Visits(x, p + [segment]), Visits(y, q + [segment]), rules);
    }
  }

  /** The whole summary hides the values of scalars, and below structural keys it hides the keys
      of data as far as they are alike. */
  lemma KeysOfDataAreHidden(a: Tree, b: Tree, rules: Rules)
    requires Disguised(a, b, false, rules)
    ensures Shape(a, rules) == Shape(b, rules)
  {
    DisguisedVisits(a, b, [], [], rules);
    VisitsNotedAlike(EMPTY, Visits(a, []), Visits(b, []), rules);
  }

  lemma ItemRedacted(path: seq<string>, key: string, rules: Rules)
    requires EndsStructural(path, rules)
    ensures RedactedParts(path + [key], rules)
         == RedactedParts(path, rules) + (if Strip(key) == "" then [] else ["{item}"])
  {
    assert (path + [key])[..|path|] == path;
  }

  /** A key of data with a noisy word in it is not hidden: although its path is redacted, the
      finding shows the whole key. */
  lemma NoisyKeyIsShown(path: seq<string>, key: string, kind: Kind, rules: Rules)
    requires EndsStructural(path, rules) && !kind.Array? && Noisy(rules.lower(key), rules.noisyTokens)
    ensures NoisyFinding(Visit(path + [key], kind), rules)
         == Some(Keyed(RedactedPath(path + [key], rules), rules.lower(key)))
    ensures RedactedParts(path + [key], rules)
         == RedactedParts(path, rules) + (if Strip(key) == "" then [] else ["{item}"])
  {
    ItemRedacted(path, key, rules);
    assert KeyOf(path + [key], rules) == rules.lower(key);
  }

  // ------------------------------------------------------------------
  // Exactly those keys
  // ------------------------------------------------------------------

  /** A whole payload: objects of one entry each along a path, and a tree at its end. */
  function Nested(path: seq<string>, t: Tree): Tree
    decreases |path|
  {
    if path == [] then t
    else
      var n := |path| - 1;
      Nested(path[..n], Obj([Entry(path[n], t)]))
  }

  /** No two payloads that differ in nothing but the one key below the path, whatever they hold
      there, have different summaries. */
  ghost predicate HiddenAt(path: seq<string>, a: string, b: string, rules: Rules) {
    forall t :: Shape(Nested(path + [a], t), rules) == Shape(Nested(path + [b], t), rules)
  }

  /** The objects on the way to the end of a path. */
  function Ancestors(path: seq<string>): (visits: seq<Visit>)
    ensures |visits| == |path|
    ensures forall i :: 0 <= i < |visits| ==> visits[i] == Visit(path[..i], Object(1))
    decreases |path|
  {
    if path == [] then []
    else Ancestors(path[..|path| - 1]) + [Visit(path[..|path| - 1], Object(1))]
  }

  /** Those objects, and the one at its end. */
  function OnTheWay(path: seq<string>): (visits: seq<Visit>)
    ensures |visits| == |path| + 1
    ensures forall i :: 0 <= i < |visits| ==> visits[i] == Visit(path[..i], Object(1))
  {
    assert path == path[..|path|];
    Ancestors(path) + [Visit(path, Object(1))]
  }

  lemma EntryVisited(key: string, t: Tree, path: seq<string>)
    ensures Visits(Obj([Entry(key, t)]), path) == [Visit(path, Object(1))] + Visits(t, path + [key])
  {
    var o := Obj([Entry(key, t)]);
    assert EntryVisits(o, path, 0) == [];
    assert EntryVisits(o, path, 1) == Visits(t, path + [key]);
  }

  lemma Joined(a: seq<Visit>, b: seq<Visit>, c: seq<Visit>)
    ensures a + (b + c) == a + b + c
  {
  }

  lemma OneLevel(before: seq<string>, key: string, path: seq<string>, t: Tree)
    requires path == before + [key]
    ensures Ancestors(before) + Visits(Obj([Entry(key, t)]), before) == Ancestors(path) + Visits(t, path)
  {
    EntryVisited(key, t, before);
    assert path[..|path| - 1] == before;
    Joined(Ancestors(before), [Visit(before, Object(1))], Visits(t, path));
  }

  lemma {:induction false} NestedVisits(path: seq<string>, t: Tree)
    ensures Visits(Nested(path, t), []) == Ancestors(path) + Visits(t, path)
    decreases |path|
  {
    if path != [] {
      var n := |path| - 1;
      NestedVisits(path[..n], Obj([Entry(path[n], t)]));
      OneLevel(path[..n], path[n], path, t);
    }
  }

  lemma NestedKeyVisits(path: seq<string>, key: string, t: Tree)
    ensures Visits(Nested(path + [key], t), []) == OnTheWay(path) + Visits(t, path + [key])
  {
    NestedVisits(path + [key], t);
    assert (path + [key])[..|path|] == path;
  }

  lemma {:induction false} SameTreeDisguised(t: Tree, below: bool, rules: Rules)
    ensures Disguised(t, t, below, rules)
    decreases t
  {
    match t {
      case Obj(entries) =>
        forall i | 0 <= i < |entries| ensures Disguised(entries[i].value, entries[i].value, IsStructural(entries[i].key, rules), rules) {
          SameTreeDisguised(entries[i].value, IsStructural(entries[i].key, rules), rules);
        }
      case Arr(items) =>
        forall i | 0 <= i < Walked(items) ensures Disguised(items[i], items[i], IsStructural(ItemSegment(items[i], i), rules), rules) {
          SameTreeDisguised(items[i], IsStructural(ItemSegment(items[i], i), rules), rules);
        }
      case _ =>
    }
  }

  lemma {:induction false} SamePathSelf(path: seq<string>, rules: Rules)
    ensures SamePath(path, path, rules)
  {
    if path != [] { SamePathSelf(path[..|path| - 1], rules); }
  }

  lemma AlikeIsHidden(path: seq<string>, a: string, b: string, rules: Rules)
    requires EndsStructural(path, rules) && Alike(a, b, rules)
    ensures HiddenAt(path, a, b, rules)
  {
    SamePathSelf(path, rules);
    SamePathExtends(path, path, a, b, rules);
    forall t ensures Shape(Nested(path + [a], t), rules) == Shape(Nested(path + [b], t), rules) {
      NestedAlike(path, a, b, t, rules);
    }
  }

  lemma NestedAlike(path: seq<string>, a: string, b: string, t: Tree, rules: Rules)
    requires SamePath(path + [a], path + [b], rules)
    ensures Shape(Nested(path + [a], t), rules) == Shape(Nested(path + [b], t), rules)
  {
    var way := OnTheWay(path);
    forall i | 0 <= i < |way| ensures SamePath(way[i].path, way[i].path, rules) { SamePathSelf(way[i].path, rules); }
    SameTreeDisguised(t, EndsStructural(path + [a], rules), rules);
    DisguisedVisits(t, t, path + [a], path + [b], rules);
    VisitsAlikeAppend(way, way, Visits(t, path + [a]), Visits(t, path + [b]), rules);
    NestedKeyVisits(path, a, t);
    NestedKeyVisits(path, b, t);
    VisitsNotedAlike(EMPTY, way + Visits(t, path + [a]), way + Visits(t, path + [b]), rules);
  }

  lemma {:induction false} JoinGrows(parts: seq<string>, last: string)
    requires parts != []
    ensures |Join(parts + [last], ".")| == |Join(parts, ".")| + 1 + |last|
  {
    if |parts| == 1 {
      assert parts + [last] == [parts[0], last] && (parts + [last])[1..] == [last];
    } else {
      assert (parts + [last])[1..] == parts[1..] + [last];
      JoinGrows(parts[1..], last);
    }
  }

  function Rendered(parts: seq<string>): string {
    if parts == [] || Join(parts, ".") == "" then "root" else Join(parts, ".")
  }

  /** How long the joined parts of a path are. */
  function Width(path: seq<string>, rules: Rules): nat {
    |Join(RedactedParts(path, rules), ".")|
  }

  lemma JoinLonger(parts: seq<string>, last: string)
    ensures |Join(parts + [last], ".")| >= |Join(parts, ".")| + |last|
  {
    if parts == [] {
      assert parts + [last] == [last];
    } else {
      JoinGrows(parts, last);
    }
  }

  lemma WiderWithMore(before: seq<string>, redacted: string, parts: seq<string>)
    requires parts == before + (if redacted == "" then [] else [redacted])
    ensures |Join(parts, ".")| >= |Join(before, ".")|
  {
    if redacted == "" {
      assert parts == before;
    } else {
      JoinLonger(before, redacted);
    }
  }

  lemma WidthStep(path: seq<string>, rules: Rules)
    requires path != []
    ensures Width(path[..|path| - 1], rules) <= Width(path, rules)
  {
    var n := |path| - 1;
    var redacted := RedactSegment(path[n], if n == 0 then None else Some(rules.lower(path[n - 1])), rules);
    WiderWithMore(RedactedParts(path[..n], rules), redacted, RedactedParts(path, rules));
  }

  lemma {:induction false} WidthGrows(path: seq<string>, i: nat, rules: Rules)
    requires i <= |path|
    ensures Width(path[..i], rules) <= Width(path, rules)
    decreases |path|
  {
    if i == |path| {
      assert path[..i] == path;
    } else {
      WidthGrows(path[..|path| - 1], i, rules);
      assert path[..|path| - 1][..i] == path[..i];
      WidthStep(path, rules);
    }
  }

  /** The path of an item is longer than all those on the way to it. */
  lemma ItemIsLonger(path: seq<string>, key: string, i: nat, rules: Rules)
    requires EndsStructural(path, rules) && Strip(key) != "" && i <= |path|
    ensures |RedactedPath(path + [key], rules)| > |RedactedPath(path[..i], rules)|
  {
    ItemRedacted(path, key, rules);
    WidthGrows(path, i, rules);
    RenderedLonger(RedactedParts(path, rules), RedactedParts(path[..i], rules), "{item}");
  }

  lemma RenderedLonger(parts: seq<string>, shorter: seq<string>, item: string)
    requires |item| == 6 && |Join(shorter, ".")| <= |Join(parts, ".")|
    ensures |Rendered(parts + [item])| > |Rendered(shorter)|
  {
    JoinLonger(parts, item);
  }

  lemma BlankItem(path: seq<string>, key: string, rules: Rules)
    requires EndsStructural(path, rules) && Strip(key) == ""
    ensures RedactedPath(path + [key], rules) == RedactedPath(path, rules)
  {
    ItemRedacted(path, key, rules);
    assert RedactedParts(path, rules) + [] == RedactedParts(path, rules);
  }

  // ------------------------------------------------------------------
  // What the last node adds
  // ------------------------------------------------------------------

  predicate Short(l: Lists, n: nat) {
    |l.paths| <= n && |l.noisyPaths| <= n && |l.entityCollections| <= n
  }

  lemma ListedShort(l: Lists, v: Visit, n: nat, rules: Rules)
    requires Short(l, n)
    ensures Short(ListedIn(l, v, rules), n + 1)
  {
  }

  /** Each node adds at most one entry to a list. */
  lemma {:induction false} FoldStaysShort(l: Lists, visits: seq<Visit>, n: nat, rules: Rules)
    requires Short(l, n)
    ensures Short(Fold(l, visits, Listing(rules)), n + |visits|)
  {
    if visits != [] {
      var k := |visits| - 1;
      FoldStaysShort(l, visits[..k], n, rules);
      ListedShort(Fold(l, visits[..k], Listing(rules)), visits[k], n + k, rules);
    }
  }

  lemma ListsAreShort(visits: seq<Visit>, rules: Rules)
    ensures Short(Noted(EMPTY, visits, rules).lists, |visits|)
  {
    FoldStaysShort(EMPTY.lists, visits, 0, rules);
  }

  lemma SortKeepsLength(paths: seq<string>)
    ensures |SortPaths(paths)| == |paths|
  {
    SortPathsMeaning(paths);
    assert |SortPaths(paths)| == |multiset(SortPaths(paths))| && |paths| == |multiset(paths)|;
  }

  lemma FindingShows(list: seq<Finding>, f: Option<Finding>, g: Option<Finding>)
    requires |list| < MAX_FINDINGS && WithFinding(list, f) == WithFinding(list, g)
    ensures f == g
  {
    if f.Some? { assert WithFinding(list, f)[|list|] == f.value; }
    if g.Some? { assert WithFinding(list, g)[|list|] == g.value; }
  }

  lemma LeafVisits(t: Tree, path: seq<string>)
    requires t == Null || t == Obj([])
    ensures Visits(t, path) == [Visit(path, KindOf(t))]
  {
  }

  /** The summary of a payload with a leaf under the key. */
  lemma LeafShape(path: seq<string>, key: string, t: Tree, rules: Rules)
    requires t == Null || t == Obj([])
    ensures Shape(Nested(path + [key], t), rules)
         == WithSortedPaths(Step(Noted(EMPTY, OnTheWay(path), rules), Visit(path + [key], KindOf(t)), rules))
  {
    NestedKeyVisits(path, key, t);
    LeafVisits(t, path + [key]);
    NotedLast(EMPTY, OnTheWay(path), Visit(path + [key], KindOf(t)), rules);
  }

  /** What equal summaries say of the two last nodes. */
  lemma LastShows(s: Summary, v: Visit, w: Visit, rules: Rules)
    requires WithSortedPaths(Step(s, v, rules)) == WithSortedPaths(Step(s, w, rules))
    requires |s.lists.noisyPaths| < MAX_FINDINGS && |s.lists.entityCollections| < MAX_FINDINGS
    ensures NoisyFinding(v, rules) == NoisyFinding(w, rules) && EntityFinding(v, rules) == EntityFinding(w, rules)
    ensures |WithPath(s.lists.paths, RedactedPath(v.path, rules))| == |WithPath(s.lists.paths, RedactedPath(w.path, rules))|
  {
    FindingShows(s.lists.noisyPaths, NoisyFinding(v, rules), NoisyFinding(w, rules));
    FindingShows(s.lists.entityCollections, EntityFinding(v, rules), EntityFinding(w, rules));
    SortKeepsLength(WithPath(s.lists.paths, RedactedPath(v.path, rules)));
    SortKeepsLength(WithPath(s.lists.paths, RedactedPath(w.path, rules)));
  }

  /** A blank key adds no path, and a key that is not blank adds one. */
  lemma BlankAddsNoPath(path: seq<string>, key: string, rules: Rules)
    requires EndsStructural(path, rules) && |path| + 1 < MAX_FINDINGS
    ensures var paths := Noted(EMPTY, OnTheWay(path), rules).lists.paths;
            |WithPath(paths, RedactedPath(path + [key], rules))| == |paths| + (if Strip(key) == "" then 0 else 1)
  {
    var way := OnTheWay(path);
    var paths := Noted(EMPTY, way, rules).lists.paths;
    ListsAreShort(way, rules);
    FoldPathsFit(way, rules);
    if Strip(key) == "" {
      BlankItem(path, key, rules);
      assert path == path[..|path|] == way[|path|].path;
      assert WasVisited(way, RedactedPath(path, rules), rules);
    } else if RedactedPath(path + [key], rules) in paths {
      var i :| 0 <= i < |way| && RedactedPath(way[i].path, rules) == RedactedPath(path + [key], rules);
      ItemIsLonger(path, key, i, rules);
    }
  }

  lemma NotAlikeShows(path: seq<string>, a: string, b: string, rules: Rules)
    requires EndsStructural(path, rules) && |path| + 1 < MAX_FINDINGS && HiddenAt(path, a, b, rules)
    ensures Alike(a, b, rules)
  {
    var s := Noted(EMPTY, OnTheWay(path), rules);
    ListsAreShort(OnTheWay(path), rules);
    forall t | t == Null || t == Obj([])
      ensures WithSortedPaths(Step(s, Visit(path + [a], KindOf(t)), rules))
           == WithSortedPaths(Step(s, Visit(path + [b], KindOf(t)), rules))
    {
      LeafShape(path, a, t, rules);
      LeafShape(path, b, t, rules);
      assert Shape(Nested(path + [a], t), rules) == Shape(Nested(path + [b], t), rules);
    }
    assert KindOf(Null) == NullKind && KindOf(Obj([])) == Object(0);
    LastShows(s, Visit(path + [a], NullKind), Visit(path + [b], NullKind), rules);
    LastShows(s, Visit(path + [a], Object(0)), Visit(path + [b], Object(0)), rules);
    BlankAddsNoPath(path, a, rules);
    BlankAddsNoPath(path, b, rules);
    assert KeyOf(path + [a], rules) == rules.lower(a) && KeyOf(path + [b], rules) == rules.lower(b);
  }

  /** Below a structural key, where no cap is reached on the way, exactly the alike keys are
      hidden: for any other two there are payloads that differ in nothing but this key, and whose
      summaries differ. Alike keys are hidden at any depth. */
  lemma HiddenKeys(path: seq<string>, a: string, b: string, rules: Rules)
    requires EndsStructural(path, rules)
    ensures Alike(a, b, rules) ==> HiddenAt(path, a, b, rules)
    ensures |path| < 79 ==> (HiddenAt(path, a, b, rules) <==> Alike(a, b, rules))
  {
    if Alike(a, b, rules) { AlikeIsHidden(path, a, b, rules); }
    if |path| + 1 < MAX_FINDINGS && HiddenAt(path, a, b, rules) { NotAlikeShows(path, a, b, rules); }
  }
}

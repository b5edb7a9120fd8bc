/** What the audit of a payload's shape says of the payload itself: which nodes it walks and under
    which names, what it counts, what it finds, and how it redacts
    (scripts/audit_active_pkm_shape_readonly.py). */
module PayloadMeaning {
  import opened Text
  import opened PayloadShape

  // ------------------------------------------------------------------
  // The nodes that are walked
  // ------------------------------------------------------------------

  /** The i-th child of a node and its name: a dict's own keys, and of a list's first hundred items
      "_items" for a dict and the index for anything else. */
  function Child(t: Tree, i: nat): Option<(string, Tree)> {
    match t
    case Obj(entries) => if i < |entries| then Some((entries[i].key, entries[i].value)) else None
    case Arr(items) =>
      if i < |items| && i < 100 then Some((if items[i].Obj? then "_items" else Decimal(i), items[i])) else None
    case _ => None
  }

  /** The names and the node that a route of child positions leads to. */
  function Reach(t: Tree, route: seq<nat>): Option<(seq<string>, Tree)>
    decreases |route|
  {
    if route == [] then Some(([], t))
    else
      match Child(t, route[0])
      case None => None
      case Some((name, child)) =>
        match Reach(child, route[1..])
        case None => None
        case Some((names, node)) => Some(([name] + names, node))
  }

  ghost predicate LeadsTo(t: Tree, path: seq<string>, route: seq<nat>, v: Visit) {
    Reach(t, route).Some? && v == Visit(path + Reach(t, route).value.0, KindOf(Reach(t, route).value.1))
  }

  lemma LeadsBelow(t: Tree, path: seq<string>, i: nat, rest: seq<nat>, v: Visit)
    requires Child(t, i).Some?
    ensures LeadsTo(t, path, [i] + rest, v) <==> LeadsTo(Child(t, i).value.1, path + [Child(t, i).value.0], rest, v)
  {
    var (name, child) := Child(t, i).value;
    assert ([i] + rest)[1..] == rest;
    if Reach(child, rest).Some? {
      assert path + ([name] + Reach(child, rest).value.0) == path + [name] + Reach(child, rest).value.0;
    }
  }

  /** A node is visited exactly if a route leads to it. */
  lemma {:induction false} VisitsExactly(t: Tree, path: seq<string>, v: Visit)
    ensures v in Visits(t, path) <==> exists route :: LeadsTo(t, path, route, v)
    decreases t, 1, 0
  {
    var here := Visit(path, KindOf(t));
    assert path + [] == path;
    assert LeadsTo(t, path, [], v) <==> v == here;
    match t {
      case Obj(entries) =>
        EntriesExactly(t, path, |entries|, v);
        assert Visits(t, path) == [here] + EntryVisits(t, path, |entries|);
      case Arr(items) =>
        ItemsExactly(t, path, Walked(items), v);
        assert Visits(t, path) == [here] + ItemVisits(t, path, Walked(items));
      case _ =>
        assert Visits(t, path) == [here];
    }
    if route :| LeadsTo(t, path, route, v) {
      if route != [] {
        assert route == [route[0]] + route[1..];
        assert Child(t, route[0]).Some?;
      }
    }
  }

  lemma {:induction false} EntriesExactly(t: Tree, path: seq<string>, n: nat, v: Visit)
    requires t.Obj? && n <= |t.entries|
    ensures v in EntryVisits(t, path, n) <==> exists i: nat, rest :: i < n && LeadsTo(t, path, [i] + rest, v)
    decreases t, 0, n
  {
    if n > 0 {
      EntriesExactly(t, path, n - 1, v);
      ChildExactly(t, path, n - 1, v);
    }
  }

  lemma {:induction false} ItemsExactly(t: Tree, path: seq<string>, n: nat, v: Visit)
    requires t.Arr? && n <= Walked(t.items)
    ensures v in ItemVisits(t, path, n) <==> exists i: nat, rest :: i < n && LeadsTo(t, path, [i] + rest, v)
    decreases t, 0, n
  {
    if n > 0 {
      ItemsExactly(t, path, n - 1, v);
      ChildExactly(t, path, n - 1, v);
    }
  }

  lemma {:induction false} ChildExactly(t: Tree, path: seq<string>, i: nat, v: Visit)
    requires Child(t, i).Some?
    ensures v in Visits(Child(t, i).value.1, path + [Child(t, i).value.0]) <==> exists rest :: LeadsTo(t, path, [i] + rest, v)
    decreases t, 0, i, 0
  {
    var (name, child) := Child(t, i).value;
    VisitsExactly(child, path + [name], v);
    if rest :| LeadsTo(child, path + [name], rest, v) { LeadsBelow(t, path, i, rest, v); }
    if rest :| LeadsTo(t, path, [i] + rest, v) { LeadsBelow(t, path, i, rest, v); }
  }

  // ------------------------------------------------------------------
  // What is counted
  // ------------------------------------------------------------------

  /** How many of the walked nodes have a property. */
  function NodeCount(t: Tree, has: Tree -> bool): nat
    decreases t, 1, 0
  {
    (if has(t) then 1 else 0)
    + (match t
       case Obj(entries) => EntryCount(t, |entries|, has)
       case Arr(items) => ItemCount(t, if |items| > 100 then 100 else |items|, has)
       case _ => 0)
  }

  function EntryCount(t: Tree, n: nat, has: Tree -> bool): nat
    requires t.Obj? && n <= |t.entries|
    decreases t, 0, n
  {
    if n == 0 then 0 else EntryCount(t, n - 1, has) + NodeCount(t.entries[n - 1].value, has)
  }

  function ItemCount(t: Tree, n: nat, has: Tree -> bool): nat
    requires t.Arr? && n <= |t.items|
    decreases t, 0, n
  {
    if n == 0 then 0 else ItemCount(t, n - 1, has) + NodeCount(t.items[n - 1], has)
  }

  /** How many visits are of a kind. */
  function KindCount(visits: seq<Visit>, fits: Kind -> bool): nat {
    if visits == [] then 0
    else KindCount(visits[..|visits| - 1], fits) + (if fits(visits[|visits| - 1].kind) then 1 else 0)
  }

  lemma {:induction false} KindCountAppend(a: seq<Visit>, b: seq<Visit>, fits: Kind -> bool)
    ensures KindCount(a + b, fits) == KindCount(a, fits) + KindCount(b, fits)
    decreases |b|
  {
    if b == [] {
      assert a + b == a;
    } else {
      assert (a + b)[..|a| + |b| - 1] == a + b[..|b| - 1];
      KindCountAppend(a, b[..|b| - 1], fits);
    }
  }

  lemma KindCountOne(v: Visit, fits: Kind -> bool)
    ensures KindCount([v], fits) == if fits(v.kind) then 1 else 0
  {
    assert KindCount([v][..0], fits) == 0;
  }

  lemma {:induction false} VisitsCounted(t: Tree, path: seq<string>, fits: Kind -> bool, has: Tree -> bool)
    requires forall x :: has(x) <==> fits(KindOf(x))
    ensures KindCount(Visits(t, path), fits) == NodeCount(t, has)
    decreases t, 1, 0
  {
    var here := Visit(path, KindOf(t));
    KindCountOne(here, fits);
    match t {
      case Obj(entries) =>
        EntriesCounted(t, path, |entries|, fits, has);
        KindCountAppend([here], EntryVisits(t, path, |entries|), fits);
      case Arr(items) =>
        ItemsCounted(t, path, Walked(items), fits, has);
        KindCountAppend([here], ItemVisits(t, path, Walked(items)), fits);
      case _ =>
        assert Visits(t, path) == [here];
    }
  }

  lemma {:induction false} EntriesCounted(t: Tree, path: seq<string>, n: nat, fits: Kind -> bool, has: Tree -> bool)
    requires t.Obj? && n <= |t.entries| && forall x :: has(x) <==> fits(KindOf(x))
    ensures KindCount(EntryVisits(t, path, n), fits) == EntryCount(t, n, has)
    decreases t, 0, n
  {
    if n > 0 {
      var x := t.entries[n - 1];
      EntriesCounted(t, path, n - 1, fits, has);
      VisitsCounted(x.value, path + [x.key], fits, has);
      KindCountAppend(EntryVisits(t, path, n - 1), Visits(x.value, path + [x.key]), fits);
    }
  }

  lemma {:induction false} ItemsCounted(t: Tree, path: seq<string>, n: nat, fits: Kind -> bool, has: Tree -> bool)
    requires t.Arr? && n <= |t.items| && forall x :: has(x) <==> fits(KindOf(x))
    ensures KindCount(ItemVisits(t, path, n), fits) == ItemCount(t, n, has)
    decreases t, 0, n
  {
    if n > 0 {
      var x := t.items[n - 1];
      var name := ItemSegment(x, n - 1);
      ItemsCounted(t, path, n - 1, fits, has);
      VisitsCounted(x, path + [name], fits, has);
      KindCountAppend(ItemVisits(t, path, n - 1), Visits(x, path + [name]), fits);
    }
  }

  predicate IsDict(t: Tree) { t.Obj? }
  predicate IsList(t: Tree) { t.Arr? }
  predicate IsNull(t: Tree) { t.Null? }
  predicate IsBoolean(t: Tree) { t.Bool? }
  predicate IsNumber(t: Tree) { t.Num? }
  predicate IsShortText(t: Tree) { t.Str? && |t.text| <= 32 }
  predicate IsMediumText(t: Tree) { t.Str? && 32 < |t.text| <= 160 }
  predicate IsLongText(t: Tree) { t.Str? && 160 < |t.text| <= 1000 }
  predicate IsVeryLongText(t: Tree) { t.Str? && 1000 < |t.text| }

  predicate DictKind(k: Kind) { k.Object? }
  predicate ListKind(k: Kind) { k.Array? }
  predicate NothingKind(k: Kind) { k.NullKind? }
  predicate TruthKind(k: Kind) { k.BooleanKind? }
  predicate AmountKind(k: Kind) { k.NumberKind? }
  predicate ShortKind(k: Kind) { k == StringKind(Short) }
  predicate MediumKind(k: Kind) { k == StringKind(Medium) }
  predicate LongKind(k: Kind) { k == StringKind(Long) }
  predicate VeryLongKind(k: Kind) { k == StringKind(VeryLong) }

  /** Each counter is the number of visits of its kind. */
  predicate CountsFit(c: Counts, visits: seq<Visit>) {
    && c.objects == KindCount(visits, DictKind)
    && c.arrays == KindCount(visits, ListKind)
    && c.nulls == KindCount(visits, NothingKind)
    && c.booleans == KindCount(visits, TruthKind)
    && c.numbers == KindCount(visits, AmountKind)
    && c.short == KindCount(visits, ShortKind)
    && c.medium == KindCount(visits, MediumKind)
    && c.long == KindCount(visits, LongKind)
    && c.veryLong == KindCount(visits, VeryLongKind)
  }

  lemma {:induction false} FoldCountsFit(visits: seq<Visit>)
    ensures CountsFit(Fold(EMPTY.counts, visits, CountedIn), visits)
  {
    if visits != [] {
      var before, v := visits[..|visits| - 1], visits[|visits| - 1];
      FoldCountsFit(before);
      assert Fold(EMPTY.counts, visits, CountedIn) == CountedIn(Fold(EMPTY.counts, before, CountedIn), v);
      match v.kind { case StringKind(bucket) => case _ => }
    }
  }

  /** What the counters of a summary count. */
  lemma CountsMeaning(t: Tree, rules: Rules)
    ensures var c := Shape(t, rules).counts;
            && c.objects == NodeCount(t, IsDict)
            && c.arrays == NodeCount(t, IsList)
            && c.nulls == NodeCount(t, IsNull)
            && c.booleans == NodeCount(t, IsBoolean)
            && c.numbers == NodeCount(t, IsNumber)
  {
    FoldCountsFit(Visits(t, []));
    VisitsCounted(t, [], DictKind, IsDict);
    VisitsCounted(t, [], ListKind, IsList);
    VisitsCounted(t, [], NothingKind, IsNull);
    VisitsCounted(t, [], TruthKind, IsBoolean);
    VisitsCounted(t, [], AmountKind, IsNumber);
  }

  /** The strings by their length. */
  lemma StringCountsMeaning(t: Tree, rules: Rules)
    ensures var c := Shape(t, rules).counts;
            && c.short == NodeCount(t, IsShortText)
            && c.medium == NodeCount(t, IsMediumText)
            && c.long == NodeCount(t, IsLongText)
            && c.veryLong == NodeCount(t, IsVeryLongText)
  {
    FoldCountsFit(Visits(t, []));
    VisitsCounted(t, [], ShortKind, IsShortText);
    VisitsCounted(t, [], MediumKind, IsMediumText);
    VisitsCounted(t, [], LongKind, IsLongText);
    VisitsCounted(t, [], VeryLongKind, IsVeryLongText);
  }

  // ------------------------------------------------------------------
  // What is found
  // ------------------------------------------------------------------

  /** A text stands in another from an index on. */
  ghost predicate PartAt(s: string, part: string, i: int) {
    0 <= i && i + |part| <= |s| && s[i..i + |part|] == part
  }

  /** What is found about one node: a list or a dict of sixteen or more, a text longer than 160, a
      noisy word in the key of anything but a list, a dict under a structural key. */
  lemma FindingsMeaning(t: Tree, path: seq<string>, rules: Rules)
    ensures var v, shown := Visit(path, KindOf(t)), RedactedPath(path, rules);
            var key := if path == [] then "" else rules.lower(path[|path| - 1]);
            && LargeFinding(v, rules) == (if t.Arr? && |t.items| >= 16 then Some(Counted(shown, |t.items|)) else None)
            && WideFinding(v, rules) == (if t.Obj? && |t.entries| >= 16 then Some(Counted(shown, |t.entries|)) else None)
            && LongFinding(v, rules) == (if t.Str? && |t.text| > 160
                                         then Some(Bucketed(shown, if |t.text| > 1000 then VeryLong else Long)) else None)
            && EntityFinding(v, rules) == (if t.Obj? && key in rules.structuralKeys then Some(Counted(shown, |t.entries|)) else None)
            && (NoisyFinding(v, rules).Some?
                <==> !t.Arr? && exists k, i :: 0 <= k < |rules.noisyTokens| && PartAt(key, rules.noisyTokens[k], i))
            && (NoisyFinding(v, rules).Some? ==> NoisyFinding(v, rules).value == Keyed(shown, key))
  {
    var key := if path == [] then "" else rules.lower(path[|path| - 1]);
    assert KeyOf(path, rules) == key;
    forall k | 0 <= k < |rules.noisyTokens|
      ensures Contains(key, rules.noisyTokens[k]) <==> exists i :: PartAt(key, rules.noisyTokens[k], i)
    {
      ContainsMeaning(key, rules.noisyTokens[k]);
    }
  }

  lemma {:induction false} ContainsMeaning(s: string, part: string)
    ensures Contains(s, part) <==> exists i :: PartAt(s, part, i)
  {
    assert PartAt(s, part, 0) <==> part <= s;
    if s != "" {
      ContainsMeaning(s[1..], part);
      forall i ensures PartAt(s[1..], part, i) <==> i >= 0 && PartAt(s, part, i + 1) {
        if i >= 0 && i + 1 + |part| <= |s| { assert s[1..][i..i + |part|] == s[i + 1..i + 1 + |part|]; }
      }
      if i :| PartAt(s, part, i) && i > 0 { assert PartAt(s[1..], part, i - 1); }
    }
  }

  // ------------------------------------------------------------------
  // How a path is redacted
  // ------------------------------------------------------------------

  /** A run of eight or more lower-case hexadecimal digits. */
  predicate LooksHex(s: string) {
    |s| >= 8 && forall i :: 0 <= i < |s| ==> s[i] in "0123456789abcdef"
  }

  ghost predicate FourDigitsAt(s: string, i: int, rules: Rules) {
    && 0 <= i <= |s| - 4
    && rules.digit(s[i]) && rules.digit(s[i + 1]) && rules.digit(s[i + 2]) && rules.digit(s[i + 3])
  }

  /** Four digits in a row. */
  ghost predicate FourDigits(s: string, rules: Rules) {
    exists i :: FourDigitsAt(s, i, rules)
  }

  lemma DigitRunMeaning(s: string, rules: Rules)
    ensures HasDigitRun(s, rules) <==> FourDigits(s, rules)
  {
    if i: nat :| i <= |s| - 4 && DigitsAt(s, i, rules) { assert FourDigitsAt(s, i, rules); }
    if i :| FourDigitsAt(s, i, rules) { assert DigitsAt(s, i, rules); }
  }

  lemma HexMeaning(s: string)
    ensures IsHexId(s) <==> LooksHex(s)
  {
    forall c: char ensures ('a' <= c <= 'f' || '0' <= c <= '9') <==> c in "0123456789abcdef" {
      if '0' <= c <= '9' { assert c == "0123456789abcdef"[c as int - '0' as int]; }
      if 'a' <= c <= 'f' { assert c == "0123456789abcdef"[c as int - 'a' as int + 10]; }
    }
  }

  /** What a segment of a path is shown as. */
  lemma RedactionMeaning(segment: string, parent: Option<string>, rules: Rules)
    requires Strip(segment) != ""
    ensures var text, shown := Strip(segment), RedactSegment(segment, parent, rules);
            var below := parent.Some? && parent.value in rules.structuralKeys;
            && (below ==> shown == "{item}")
            && (!below && '@' in text ==> shown == "{email}")
            && (!below && '@' !in text && (LooksHex(rules.lower(text)) || FourDigits(rules.lower(text), rules)) ==> shown == "{id}")
            && (!below && '@' !in text && !LooksHex(rules.lower(text)) && !FourDigits(rules.lower(text), rules) ==>
                  shown == if |text| > 40 then "{key}" else rules.lower(text))
  {
    HexMeaning(rules.lower(Strip(segment)));
    DigitRunMeaning(rules.lower(Strip(segment)), rules);
  }
}

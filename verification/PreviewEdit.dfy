/** What the edit of a domain tree by a preview means (scripts/local_pkm_core_path_smoke.py,
    _apply_preview_to_domain_data), said by looking paths up in the trees before and after it. */
module PreviewEdit {
  import opened Text
  import opened Json
  import opened DomainMerge
  import opened EntityEdit

  predicate HasDict(j: Json, path: seq<string>) {
    At(j, path).Some? && At(j, path).value.Obj?
  }

  /** The two paths part: neither leads to the other. */
  predicate Diverge(p: seq<string>, q: seq<string>) {
    !(p <= q) && !(q <= p)
  }

  /** At and below the path `after` answers as `patch` does, above it there are dicts, and
      everywhere else it answers as `before`. */
  ghost predicate Replaced(before: Json, path: seq<string>, patch: Json, after: Json) {
    forall q ::
      && (path <= q ==> At(after, q) == At(patch, q))
      && (q < path ==> HasDict(after, q))
      && (Diverge(path, q) ==> At(after, q) == At(before, q))
  }

  /** Nothing is left at or below the entity's path; `entities` above it goes exactly when it held
      nothing else; the dicts above that stay, and everywhere else `after` answers as `before`. */
  ghost predicate Removed(before: Json, scope: seq<string>, id: string, after: Json) {
    var path := scope + ["entities", id];
    forall q ::
      && (path <= q ==> At(after, q) == None)
      && (q <= scope ==> HasDict(after, q))
      && (q == scope + ["entities"] ==>
            if exists other :: other != id && At(before, q + [other]).Some? then HasDict(after, q) else At(after, q) == None)
      && (Diverge(path, q) ==> At(after, q) == At(before, q))
  }

  /** The patch merged into the tree, dicts having been made along `made` first. Where the patch
      has a dict and so has the tree, there is a dict; where it has anything else that is the
      result; where its dicts lack a key the tree answers; and where one of its other values cuts
      the path there is nothing. */
  ghost predicate MergedInto(before: Json, made: seq<string>, patch: Json, after: Json) {
    forall q ::
      match At(patch, q)
      case Some(p) => if p.Obj? && (q <= made || HasDict(before, q)) then HasDict(after, q) else At(after, q) == Some(p)
      case None =>
        if !LacksKey(patch, q) then At(after, q) == None
        else if q <= made then HasDict(after, q)
        else At(after, q) == At(before, q)
  }

  /** Somewhere on the path the tree has a dict without the next key. */
  ghost predicate LacksKey(j: Json, q: seq<string>) {
    exists i :: 0 <= i < |q| && HasDict(j, q[..i]) && At(j, q[..i + 1]) == None
  }

  /** The edit a preview stands for, by the word it names. */
  ghost predicate Edited(before: Fields, p: Preview, after: Fields) {
    var path := p.scope + ["entities", p.id];
    var targeted := p.scope != [] && p.id != "";
    var named := At(Obj(p.candidate), path).Some?;
    var found := HasDict(Obj(before), path);
    && (p.mode == "create_entity" ==> MergedInto(Obj(before), [], Obj(p.candidate), Obj(after)))
    && (p.mode == "extend_entity" ==> MergedInto(Obj(before), [], Obj(p.candidate), Obj(after)))
    && (p.mode == "correct_entity" && targeted && named ==> Replaced(Obj(before), path, Obj(p.candidate), Obj(after)))
    && (p.mode == "correct_entity" && !(targeted && named) ==> MergedInto(Obj(before), [], Obj(p.candidate), Obj(after)))
    && (p.mode == "delete_entity" && targeted && found ==> Removed(Obj(before), p.scope, p.id, Obj(after)))
    && (p.mode == "delete_entity" && targeted && !found ==> MergedInto(Obj(before), p.scope, Obj(p.candidate), Obj(after)))
    && (p.mode == "delete_entity" && !targeted ==> MergedInto(Obj(before), [], Obj(p.candidate), Obj(after)))
    && (p.mode !in {"create_entity", "extend_entity", "correct_entity", "delete_entity"} ==> after == before)
  }

  // ------------------------------------------------------------------
  // Merging
  // ------------------------------------------------------------------

  lemma {:induction false} FallsOffMeaning(j: Json, q: seq<string>)
    requires At(j, q) == None
    ensures FallsOff(j, q) <==> LacksKey(j, q)
    decreases |q|
  {
    assert q != [] && q[..0] == [];
    if j.Obj? && q[0] in j.fields {
      FallsOffMeaning(j.fields[q[0]], q[1..]);
      LacksBelow(j, q);
    } else if j.Obj? {
      assert At(j, q[..1]) == None;
      assert HasDict(j, q[..0]);
    } else {
      forall i | 0 <= i < |q| ensures !HasDict(j, q[..i]) {
      }
    }
  }

  lemma LacksBelow(j: Json, q: seq<string>)
    requires q != [] && j.Obj? && q[0] in j.fields
    ensures LacksKey(j, q) <==> LacksKey(j.fields[q[0]], q[1..])
  {
    var kid, rest := j.fields[q[0]], q[1..];
    forall i | 1 <= i <= |q| ensures At(j, q[..i]) == At(kid, rest[..i - 1]) {
      assert q[..i][1..] == rest[..i - 1];
    }
    assert At(j, q[..1]) == Some(kid);
    if i :| 0 <= i < |q| && HasDict(j, q[..i]) && At(j, q[..i + 1]) == None {
      assert HasDict(kid, rest[..i - 1]) && At(kid, rest[..i - 1 + 1]) == None;
    }
    if i :| 0 <= i < |rest| && HasDict(kid, rest[..i]) && At(kid, rest[..i + 1]) == None {
      assert HasDict(j, q[..i + 1]) && At(j, q[..i + 1 + 1]) == None;
    }
  }

  lemma MergeMeaning(fields: Fields, candidate: Fields)
    ensures MergedInto(Obj(fields), [], Obj(candidate), Merge(Obj(fields), Obj(candidate)))
  {
    var before, patch := Obj(fields), Obj(candidate);
    forall q ensures
      match At(patch, q)
      case Some(p) =>
        if p.Obj? && (q <= [] || HasDict(before, q)) then HasDict(Merge(before, patch), q)
        else At(Merge(before, patch), q) == Some(p)
      case None =>
        if !LacksKey(patch, q) then At(Merge(before, patch), q) == None
        else if q <= [] then HasDict(Merge(before, patch), q)
        else At(Merge(before, patch), q) == At(before, q)
    {
      MergeAt(before, patch, q);
      if At(patch, q) == None { FallsOffMeaning(patch, q); }
    }
  }

  /** The dicts made along a path: there they are, and everywhere else nothing has changed. */
  lemma EnsuredAt(fields: Fields, path: seq<string>, q: seq<string>)
    ensures q <= path ==> HasDict(Obj(Ensured(fields, path)), q)
    ensures !(q <= path) ==> At(Obj(Ensured(fields, path)), q) == At(Obj(fields), q)
  {
    WithContainerAt(fields, path, Container(fields, path), q);
    if path <= q && q != path {
      assert q == path + q[|path|..];
      ContainerAt(fields, path, q[|path|..]);
    }
  }

  lemma MergeMadeMeaning(fields: Fields, scope: seq<string>, candidate: Fields)
    ensures MergedInto(Obj(fields), scope, Obj(candidate), Merge(Obj(Ensured(fields, scope)), Obj(candidate)))
  {
    var before, patch, after := Obj(fields), Obj(candidate), Merge(Obj(Ensured(fields, scope)), Obj(candidate));
    forall q ensures
      match At(patch, q)
      case Some(p) => if p.Obj? && (q <= scope || HasDict(before, q)) then HasDict(after, q) else At(after, q) == Some(p)
      case None =>
        if !LacksKey(patch, q) then At(after, q) == None
        else if q <= scope then HasDict(after, q)
        else At(after, q) == At(before, q)
    {
      MergeAt(Obj(Ensured(fields, scope)), patch, q);
      EnsuredAt(fields, scope, q);
      if At(patch, q) == None { FallsOffMeaning(patch, q); }
    }
  }

  // ------------------------------------------------------------------
  // Correcting and deleting
  // ------------------------------------------------------------------

  lemma {:induction false} AtJoined(j: Json, p: seq<string>, q: seq<string>)
    ensures At(j, p + q) == (match At(j, p) case None => None case Some(v) => At(v, q))
    decreases |p|
  {
    if p == [] {
      assert p + q == q;
    } else {
      assert (p + q)[1..] == p[1..] + q;
      if j.Obj? && p[0] in j.fields { AtJoined(j.fields[p[0]], p[1..], q); }
    }
  }

  lemma OneKey(j: Json, a: string)
    ensures At(j, [a]) == if j.Obj? && a in j.fields then Some(j.fields[a]) else None
  {
    assert [a][1..] == [];
  }

  lemma TwoKeys(j: Json, a: string, b: string)
    ensures At(j, [a, b])
         == if j.Obj? && a in j.fields && j.fields[a].Obj? && b in j.fields[a].fields then Some(j.fields[a].fields[b]) else None
  {
    assert [a, b][1..] == [b];
    if j.Obj? && a in j.fields { OneKey(j.fields[a], b); }
  }

  lemma PatchEntityAt(candidate: Fields, scope: seq<string>, id: string)
    ensures PatchEntity(candidate, scope, id) == At(Obj(candidate), scope + ["entities", id])
  {
    AtJoined(Obj(candidate), scope, ["entities", id]);
    if At(Obj(candidate), scope).Some? {
      TwoKeys(At(Obj(candidate), scope).value, "entities", id);
    }
  }

  lemma EntityAt(fields: Fields, scope: seq<string>, id: string)
    ensures Entity(fields, scope, id).Some? <==> HasDict(Obj(fields), scope + ["entities", id])
  {
    ContainerAt(fields, scope, ["entities", id]);
    TwoKeys(Obj(Container(fields, scope)), "entities", id);
  }

  /** Above a value there are dicts. */
  lemma DictsAbove(j: Json, p: seq<string>, q: seq<string>)
    requires q < p && At(j, p).Some?
    ensures HasDict(j, q)
  {
    AtJoined(j, q, p[|q|..]);
    assert p == q + p[|q|..];
  }

  lemma CorrectMeaning(fields: Fields, scope: seq<string>, id: string, candidate: Fields)
    requires PatchEntity(candidate, scope, id).Some?
    ensures Replaced(Obj(fields), scope + ["entities", id], Obj(candidate),
                     Obj(Corrected(fields, scope, id, PatchEntity(candidate, scope, id).value)))
  {
    var path := scope + ["entities", id];
    var entity := PatchEntity(candidate, scope, id).value;
    var after := Obj(Corrected(fields, scope, id, entity));
    PatchEntityAt(candidate, scope, id);
    forall q
      ensures path <= q ==> At(after, q) == At(Obj(candidate), q)
      ensures q < path ==> HasDict(after, q)
      ensures Diverge(path, q) ==> At(after, q) == At(Obj(fields), q)
    {
      CorrectTouchesOneEntity(fields, scope, id, entity, q);
      if path <= q {
        assert q == path + q[|path|..];
        AtJoined(Obj(candidate), path, q[|path|..]);
      }
      if q < path {
        CorrectTouchesOneEntity(fields, scope, id, entity, path);
        assert At(entity, path[|scope| + 2..]) == Some(entity);
        DictsAbove(after, path, q);
      }
    }
  }

  lemma OnlyEntity(before: Json, path: seq<string>, id: string)
    requires HasDict(before, path + [id])
    ensures (exists other :: other != id && At(before, path + [other]).Some?)
       <==> At(before, path) != Some(Obj(map[id := At(before, path + [id]).value]))
  {
    AtAppend(before, path, id);
    var entities := At(before, path).value.fields;
    forall other ensures At(before, path + [other]).Some? <==> other in entities {
      AtAppend(before, path, other);
    }
    if !exists other :: other != id && other in entities {
      assert entities == map[id := entities[id]];
    }
  }

  lemma EntitiesAfter(fields: Fields, scope: seq<string>, id: string)
    requires Entity(fields, scope, id).Some?
    ensures var q := scope + ["entities"];
            var after := Obj(Deleted(fields, scope, id));
            if exists other :: other != id && At(Obj(fields), q + [other]).Some? then HasDict(after, q) else At(after, q) == None
  {
    var q := scope + ["entities"];
    var after := Obj(Deleted(fields, scope, id));
    assert q + [id] == scope + ["entities", id];
    EntityAt(fields, scope, id);
    OnlyEntity(Obj(fields), q, id);
    DeleteTouchesOneEntity(fields, scope, id, q);
    ContainerAt(fields, scope, ["entities", id]);
    EntityValue(fields, scope, id);
    if other :| other != id && At(Obj(fields), q + [other]).Some? {
      var r := q + [other];
      assert Diverge(EntityPath(scope, id), r) by {
        assert r[|scope| + 1] == other && EntityPath(scope, id)[|scope| + 1] == id;
      }
      DeleteTouchesOneEntity(fields, scope, id, r);
      DictsAbove(after, r, q);
    }
  }

  lemma EntityValue(fields: Fields, scope: seq<string>, id: string)
    requires Entity(fields, scope, id).Some?
    ensures At(Obj(fields), scope + ["entities"] + [id]) == Some(Obj(Entity(fields, scope, id).value))
  {
    assert scope + ["entities"] + [id] == scope + ["entities", id];
    ContainerAt(fields, scope, ["entities", id]);
    TwoKeys(Obj(Container(fields, scope)), "entities", id);
  }

  lemma DeleteMeaning(fields: Fields, scope: seq<string>, id: string)
    requires Entity(fields, scope, id).Some?
    ensures Removed(Obj(fields), scope, id, Obj(Deleted(fields, scope, id)))
  {
    var path := scope + ["entities", id];
    var before, after := Obj(fields), Obj(Deleted(fields, scope, id));
    EntitiesAfter(fields, scope, id);
    forall q
      ensures path <= q ==> At(after, q) == None
      ensures q <= scope ==> HasDict(after, q)
      ensures q == scope + ["entities"] ==>
                if exists other :: other != id && At(before, q + [other]).Some? then HasDict(after, q) else At(after, q) == None
      ensures Diverge(path, q) ==> At(after, q) == At(before, q)
    {
      DeleteTouchesOneEntity(fields, scope, id, q);
      if q <= scope { WithContainerAt(fields, scope, WithoutEntity(Container(fields, scope), id), q); }
    }
  }

  /** The edit function does what the preview's word says. */
  lemma ApplyMeaning(fields: Fields, p: Preview)
    ensures Edited(fields, p, Apply(fields, p))
  {
    PatchEntityAt(p.candidate, p.scope, p.id);
    EntityAt(fields, p.scope, p.id);
    MergeMeaning(fields, p.candidate);
    MergeMadeMeaning(fields, p.scope, p.candidate);
    if PatchEntity(p.candidate, p.scope, p.id).Some? { CorrectMeaning(fields, p.scope, p.id, p.candidate); }
    if Entity(fields, p.scope, p.id).Some? { DeleteMeaning(fields, p.scope, p.id); }
  }

  // ------------------------------------------------------------------
  // There is only one such tree
  // ------------------------------------------------------------------

  ghost predicate SameAt(a: Json, b: Json, q: seq<string>) {
    At(a, q) == At(b, q) || (HasDict(a, q) && HasDict(b, q))
  }

  lemma {:induction false} LookupsFixTree(a: Json, b: Json)
    requires forall q :: SameAt(a, b, q)
    ensures a == b
  {
    assert SameAt(a, b, []);
    if a.Obj? && b.Obj? {
      forall k ensures (k in a.fields <==> k in b.fields) && (k in a.fields ==> a.fields[k] == b.fields[k]) {
        OneKey(a, k);
        OneKey(b, k);
        assert SameAt(a, b, [k]);
        if k in a.fields {
          LookupsBelow(a, b, k);
          LookupsFixTree(a.fields[k], b.fields[k]);
        }
      }
      assert a.fields == b.fields;
    }
  }

  lemma LookupsBelow(a: Json, b: Json, k: string)
    requires a.Obj? && b.Obj? && k in a.fields && k in b.fields && forall q :: SameAt(a, b, q)
    ensures forall q :: SameAt(a.fields[k], b.fields[k], q)
  {
    forall q ensures SameAt(a.fields[k], b.fields[k], q) {
      assert ([k] + q)[1..] == q;
      assert SameAt(a, b, [k] + q);
    }
  }

  lemma MergedIsExact(before: Json, made: seq<string>, patch: Json, x: Json, y: Json)
    requires MergedInto(before, made, patch, x) && MergedInto(before, made, patch, y)
    ensures x == y
  {
    forall q ensures SameAt(x, y, q) {
      assert At(patch, q) == At(patch, q);
    }
    LookupsFixTree(x, y);
  }

  lemma ReplacedIsExact(before: Json, path: seq<string>, patch: Json, x: Json, y: Json)
    requires Replaced(before, path, patch, x) && Replaced(before, path, patch, y)
    ensures x == y
  {
    forall q ensures SameAt(x, y, q) {
      assert path <= q || q < path || Diverge(path, q);
    }
    LookupsFixTree(x, y);
  }

  lemma RemovedIsExact(before: Json, scope: seq<string>, id: string, x: Json, y: Json)
    requires Removed(before, scope, id, x) && Removed(before, scope, id, y)
    ensures x == y
  {
    var path := scope + ["entities", id];
    forall q ensures SameAt(x, y, q) {
      if q < path && !(q <= scope) { assert q == scope + ["entities"]; }
      assert path <= q || q < path || Diverge(path, q);
    }
    LookupsFixTree(x, y);
  }

  /** No two results are the edit of one tree by one preview. */
  lemma EditedIsExact(before: Fields, p: Preview, x: Fields, y: Fields)
    requires Edited(before, p, x) && Edited(before, p, y)
    ensures x == y
  {
    var path := p.scope + ["entities", p.id];
    var made := if p.mode == "delete_entity" && p.scope != [] && p.id != "" then p.scope else [];
    if Replaced(Obj(before), path, Obj(p.candidate), Obj(x)) && Replaced(Obj(before), path, Obj(p.candidate), Obj(y)) {
      ReplacedIsExact(Obj(before), path, Obj(p.candidate), Obj(x), Obj(y));
    } else if Removed(Obj(before), p.scope, p.id, Obj(x)) && Removed(Obj(before), p.scope, p.id, Obj(y)) {
      RemovedIsExact(Obj(before), p.scope, p.id, Obj(x), Obj(y));
    } else if p.mode in {"create_entity", "extend_entity", "correct_entity", "delete_entity"} {
      MergedIsExact(Obj(before), made, Obj(p.candidate), Obj(x), Obj(y));
    }
  }

  // ------------------------------------------------------------------
  // Where a preview says what
  // ------------------------------------------------------------------

  /** The text at a path of a preview, "" where there is none. */
  function TextAt(preview: Fields, path: seq<string>, show: Json -> string): string {
    match At(Obj(preview), path) case None => "" case Some(v) => TextOf(v, show)
  }

  function DictAt(preview: Fields, path: seq<string>): Fields {
    match At(Obj(preview), path) case None => map[] case Some(v) => DictOrEmpty(v)
  }

  lemma ReadPreviewMeaning(preview: Fields, show: Json -> string)
    ensures var p := ReadPreview(preview, show);
            && p.mode == Strip(TextAt(preview, ["merge_decision", "merge_mode"], show))
            && p.id == Strip(TextAt(preview, ["merge_decision", "target_entity_id"], show))
            && p.scope == PathSegments(TextAt(preview, ["target_entity_scope"], show))
            && p.candidate == DictAt(preview, ["candidate_payload"])
  {
    TwoKeys(Obj(preview), "merge_decision", "merge_mode");
    TwoKeys(Obj(preview), "merge_decision", "target_entity_id");
    OneKey(Obj(preview), "target_entity_scope");
    OneKey(Obj(preview), "candidate_payload");
  }
}

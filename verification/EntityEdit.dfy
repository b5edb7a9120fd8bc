/** Entity edits on a domain tree (scripts/local_pkm_core_path_smoke.py): dotted paths,
    containers made on the way, correcting and deleting one entity, counting entities. */
module EntityEdit {
  import opened Text
  import opened Json
  import opened DomainMerge

  // ------------------------------------------------------------------
  // _normalize_path
  // ------------------------------------------------------------------

  function TrimmedSegments(parts: seq<string>): seq<string> {
    if parts == [] then []
    else
      var segment := Strip(parts[0]);
      (if segment == "" then [] else [segment]) + TrimmedSegments(parts[1..])
  }

  function PathSegments(path: string): seq<string> {
    TrimmedSegments(Split(path, '.'))
  }

  function NormalizePath(path: string): string {
    Join(PathSegments(path), ".")
  }

  predicate CleanSegments(segments: seq<string>) {
    forall i :: 0 <= i < |segments| ==> segments[i] != "" && Trimmed(segments[i]) && '.' !in segments[i]
  }

  lemma {:induction false} TrimmedSegmentsClean(parts: seq<string>)
    requires forall i :: 0 <= i < |parts| ==> '.' !in parts[i]
    ensures CleanSegments(TrimmedSegments(parts))
    ensures CleanSegments(parts) ==> TrimmedSegments(parts) == parts
  {
    if parts != [] {
      TrimmedSegmentsClean(parts[1..]);
      StripTrimmed(parts[0]);
      StripHasOnly(parts[0], '.');
    }
  }

  lemma StripHasOnly(s: string, c: char)
    requires c !in s
    ensures c !in Strip(s)
  {
    LStripSuffix(s);
    RStripEnds(LStrip(s));
  }

  lemma {:induction false} LStripSuffix(s: string)
    ensures LStrip(s) == s[|s| - |LStrip(s)|..]
  {
    if s != "" && IsSpace(s[0]) { LStripSuffix(s[1..]); }
  }

  /** A normalized path splits into exactly its segments, none of them empty or padded;
      it is empty when there are none, and normalizing it again changes nothing. */
  lemma NormalizedPath(path: string)
    ensures var segments := PathSegments(path);
            && CleanSegments(segments)
            && (NormalizePath(path) == "" <==> segments == [])
            && (segments != [] ==> Split(NormalizePath(path), '.') == segments)
            && NormalizePath(NormalizePath(path)) == NormalizePath(path)
  {
    SplitParts(path, '.');
    TrimmedSegmentsClean(Split(path, '.'));
    var segments := PathSegments(path);
    if segments != [] {
      SplitJoin(segments, '.');
      TrimmedSegmentsClean(segments);
      if |segments| > 1 {
        assert Join(segments, ".") == segments[0] + "." + Join(segments[1..], ".");
      }
    }
  }

  // ------------------------------------------------------------------
  // Containers along a path
  // ------------------------------------------------------------------

  type Fields = map<string, Json>

  /** The dict under a key, {} where there is none. */
  function SubFields(fields: Fields, key: string): Fields {
    if key in fields then DictOrEmpty(fields[key]) else map[]
  }

  function Container(fields: Fields, path: seq<string>): Fields
    decreases path
  {
    if path == [] then fields else Container(SubFields(fields, path[0]), path[1..])
  }

  /** The tree with a dict put at the path, dicts being made of whatever is in the way. */
  function WithContainer(fields: Fields, path: seq<string>, content: Fields): Fields
    decreases path
  {
    if path == [] then content
    else fields[path[0] := Obj(WithContainer(SubFields(fields, path[0]), path[1..], content))]
  }

  /** _ensure_scope_container as a function of the tree. */
  function Ensured(fields: Fields, path: seq<string>): Fields {
    WithContainer(fields, path, Container(fields, path))
  }

  lemma {:induction false} ContainerLaws(fields: Fields, path: seq<string>, first: Fields, second: Fields)
    ensures Container(WithContainer(fields, path, first), path) == first
    ensures WithContainer(WithContainer(fields, path, first), path, second) == WithContainer(fields, path, second)
    decreases path
  {
    if path != [] {
      ContainerLaws(SubFields(fields, path[0]), path[1..], first, second);
    }
  }

  lemma {:induction false} ContainerAppend(fields: Fields, path: seq<string>, key: string, content: Fields)
    ensures Container(fields, path + [key]) == SubFields(Container(fields, path), key)
    ensures WithContainer(fields, path + [key], content)
         == WithContainer(fields, path, Container(fields, path)[key := Obj(content)])
    decreases path
  {
    if path != [] {
      assert (path + [key])[1..] == path[1..] + [key];
      ContainerAppend(SubFields(fields, path[0]), path[1..], key, content);
    }
  }

  /** Lookup after a dict is put at a path: below it the dict answers, off it nothing has
      changed, and on the way there are dicts. */
  lemma {:induction false} WithContainerAt(fields: Fields, path: seq<string>, content: Fields, q: seq<string>)
    ensures path <= q ==> At(Obj(WithContainer(fields, path, content)), q) == At(Obj(content), q[|path|..])
    ensures q <= path ==> At(Obj(WithContainer(fields, path, content)), q).Some?
                          && At(Obj(WithContainer(fields, path, content)), q).value.Obj?
    ensures !(path <= q) && !(q <= path) ==> At(Obj(WithContainer(fields, path, content)), q) == At(Obj(fields), q)
    decreases |path|
  {
    var after := WithContainer(fields, path, content);
    if path != [] && q != [] {
      if path[0] == q[0] {
        WithContainerAt(SubFields(fields, path[0]), path[1..], content, q[1..]);
        assert path <= q <==> path[1..] <= q[1..];
        assert q <= path <==> q[1..] <= path[1..];
        if !(path <= q) && !(q <= path) {
          assert q[1..] != [];
          assert At(Obj(SubFields(fields, path[0])), q[1..]) == At(Obj(fields), q);
        }
      }
    }
  }

  // ------------------------------------------------------------------
  // The edits
  // ------------------------------------------------------------------

  /** One entity set, under the `entities` dict of the container at the scope path. */
  function Corrected(fields: Fields, scope: seq<string>, id: string, entity: Json): Fields {
    var container := Container(fields, scope);
    WithContainer(fields, scope, container["entities" := Obj(SubFields(container, "entities")[id := entity])])
  }

  /** The dict at scope.entities.id, if there is one. */
  function Entity(fields: Fields, scope: seq<string>, id: string): Option<Fields> {
    var entities := SubFields(Container(fields, scope), "entities");
    if id in entities && entities[id].Obj? then Some(entities[id].fields) else None
  }

  /** The container once the entity is gone, without an `entities` dict it would leave empty. */
  function WithoutEntity(container: Fields, id: string): Fields {
    var entities := SubFields(container, "entities") - {id};
    if entities == map[] then container - {"entities"} else container["entities" := Obj(entities)]
  }

  function Deleted(fields: Fields, scope: seq<string>, id: string): Fields {
    WithContainer(fields, scope, WithoutEntity(Container(fields, scope), id))
  }

  /** The patch's entity for a correction: extracted at the scope path, under `entities`. */
  function PatchEntity(candidate: Fields, scope: seq<string>, id: string): Option<Json> {
    match At(Obj(candidate), scope)
    case None => None
    case Some(patch) =>
      var entities := SubFields(DictOrEmpty(patch), "entities");
      if id in entities then Some(entities[id]) else None
  }

  datatype Preview = Preview(candidate: Fields, mode: string, scope: seq<string>, id: string)

  /** The four fields a preview is read for. */
  function ReadPreview(preview: Fields, show: Json -> string): Preview {
    var decision := DictOrEmpty(Field(preview, "merge_decision"));
    Preview(
      DictOrEmpty(Field(preview, "candidate_payload")),
      Strip(TextOf(Field(decision, "merge_mode"), show)),
      PathSegments(TextOf(Field(preview, "target_entity_scope"), show)),
      Strip(TextOf(Field(decision, "target_entity_id"), show)))
  }

  /** _apply_preview_to_domain_data. A deletion that finds no entity has made the
      containers on its path before it falls back to merging. */
  function Apply(fields: Fields, p: Preview): Fields {
    var targeted := p.scope != [] && p.id != "";
    if p.mode == "create_entity" || p.mode == "extend_entity" then
      Merge(Obj(fields), Obj(p.candidate)).fields
    else if p.mode == "correct_entity" then
      if targeted && PatchEntity(p.candidate, p.scope, p.id).Some? then
        Corrected(fields, p.scope, p.id, PatchEntity(p.candidate, p.scope, p.id).value)
      else Merge(Obj(fields), Obj(p.candidate)).fields
    else if p.mode == "delete_entity" then
      if targeted && Entity(fields, p.scope, p.id).Some? then Deleted(fields, p.scope, p.id)
      else Merge(Obj(if targeted then Ensured(fields, p.scope) else fields), Obj(p.candidate)).fields
    else fields
  }

  // ------------------------------------------------------------------
  // Frame of the edits
  // ------------------------------------------------------------------

  function EntityPath(scope: seq<string>, id: string): seq<string> {
    scope + ["entities", id]
  }

  lemma {:induction false} ContainerAt(fields: Fields, path: seq<string>, q: seq<string>)
    requires q != []
    ensures At(Obj(fields), path + q) == At(Obj(Container(fields, path)), q)
    decreases |path|
  {
    if path == [] {
      assert path + q == q;
    } else {
      assert (path + q)[1..] == path[1..] + q;
      ContainerAt(SubFields(fields, path[0]), path[1..], q);
      if !(path[0] in fields && fields[path[0]].Obj?) {
        assert At(Obj(fields), path + q) == None;
        EmptyContainer(path[1..], q);
      }
    }
  }

  lemma {:induction false} EmptyContainer(path: seq<string>, q: seq<string>)
    requires q != []
    ensures Container(map[], path) == map[] && At(Obj(map[]), q) == None
  {
    if path != [] { EmptyContainer(path[1..], q); }
  }

  /** A correction replaces exactly one entity: at and below scope.entities.id the new
      entity answers, and every path that diverges from that one answers as before. */
  lemma CorrectTouchesOneEntity(fields: Fields, scope: seq<string>, id: string, entity: Json, q: seq<string>)
    ensures EntityPath(scope, id) <= q ==>
              At(Obj(Corrected(fields, scope, id, entity)), q) == At(entity, q[|scope| + 2..])
    ensures !(EntityPath(scope, id) <= q) && !(q <= EntityPath(scope, id)) ==>
              At(Obj(Corrected(fields, scope, id, entity)), q) == At(Obj(fields), q)
  {
    var container := Container(fields, scope);
    var entities := SubFields(container, "entities");
    var content := container["entities" := Obj(entities[id := entity])];
    WithContainerAt(fields, scope, content, q);
    if scope <= q {
      var r := q[|scope|..];
      assert q == scope + r;
      if r != [] {
        ContainerAt(fields, scope, r);
        EditedContainerAt(container, content, entities, id, entity, r);
      }
    }
  }

  lemma EditedContainerAt(container: Fields, content: Fields, entities: Fields, id: string, entity: Json, r: seq<string>)
    requires entities == SubFields(container, "entities") && r != []
    requires content == container["entities" := Obj(entities[id := entity])]
    ensures ["entities", id] <= r ==> At(Obj(content), r) == At(entity, r[2..])
    ensures !(["entities", id] <= r) && !(r <= ["entities", id]) ==> At(Obj(content), r) == At(Obj(container), r)
  {
    if r[0] == "entities" && |r| > 1 {
      assert r[1..][1..] == r[2..];
      assert At(Obj(content), r) == At(Obj(entities[id := entity]), r[1..]);
      assert At(Obj(container), r) == At(Obj(entities), r[1..]);
    }
  }

  /** A deletion removes exactly one entity: nothing is left at or below scope.entities.id,
      every path that diverges from it answers as before, and the `entities` dict itself
      goes exactly when it held nothing else. */
  lemma DeleteTouchesOneEntity(fields: Fields, scope: seq<string>, id: string, q: seq<string>)
    requires Entity(fields, scope, id).Some?
    ensures EntityPath(scope, id) <= q ==> At(Obj(Deleted(fields, scope, id)), q) == None
    ensures !(EntityPath(scope, id) <= q) && !(q <= EntityPath(scope, id)) ==>
              At(Obj(Deleted(fields, scope, id)), q) == At(Obj(fields), q)
    ensures q == scope + ["entities"] ==>
              (At(Obj(Deleted(fields, scope, id)), q) == None
               <==> At(Obj(fields), q) == Some(Obj(map[id := Obj(Entity(fields, scope, id).value)])))
  {
    var container := Container(fields, scope);
    WithContainerAt(fields, scope, WithoutEntity(container, id), q);
    if scope <= q {
      var r := q[|scope|..];
      assert q == scope + r;
      if r != [] {
        ContainerAt(fields, scope, r);
        WithoutEntityAt(container, id, r);
      }
    }
  }

  lemma WithoutEntityAt(container: Fields, id: string, r: seq<string>)
    requires r != [] && id in SubFields(container, "entities") && SubFields(container, "entities")[id].Obj?
    ensures ["entities", id] <= r ==> At(Obj(WithoutEntity(container, id)), r) == None
    ensures !(["entities", id] <= r) && !(r <= ["entities", id]) ==>
              At(Obj(WithoutEntity(container, id)), r) == At(Obj(container), r)
    ensures r == ["entities"] ==>
              (At(Obj(WithoutEntity(container, id)), r) == None
               <==> At(Obj(container), r) == Some(Obj(map[id := SubFields(container, "entities")[id]])))
  {
    var before := SubFields(container, "entities");
    var entities := before - {id};
    if r[0] == "entities" && |r| > 1 {
      assert At(Obj(container), r) == At(Obj(before), r[1..]);
      if entities == map[] && r[1] != id {
        assert r[1] !in entities;
      }
    }
    if r == ["entities"] {
      assert At(Obj(container), r) == Some(Obj(before));
      assert before == map[id := before[id]] <==> entities == map[] by {
        if entities == map[] {
          forall k | k in before ensures k == id { assert k != id ==> k in entities; }
        }
      }
    }
  }

  // ------------------------------------------------------------------
  // _count_entities
  // ------------------------------------------------------------------

  /** A dict that is not marked deleted. */
  predicate IsActive(entity: Json) {
    entity.Obj? && Field(entity.fields, "status") != Str("deleted")
  }

  function ActiveKeys(entities: Fields): set<string> {
    set k | k in entities && IsActive(entities[k])
  }

  /** The active entities in the `entities` dict directly under these fields. */
  function ActiveHere(fields: Fields): nat {
    |ActiveKeys(SubFields(fields, "entities"))|
  }

  /** The sum of the numbers in a map. */
  ghost function Total(counts: map<string, nat>): nat
    decreases |counts|
  {
    if counts == map[] then 0
    else
      var k :| k in counts;
      assert |(counts - {k}).Keys| < |counts.Keys| by { assert (counts - {k}).Keys == counts.Keys - {k}; }
      counts[k] + Total(counts - {k})
  }

  ghost function Count(j: Json): nat {
    match j
    case Obj(fields) => ActiveHere(fields) + Total(map k | k in fields :: Count(fields[k]))
    case Arr(items) => CountItems(items)
    case _ => 0
  }

  ghost function CountItems(items: seq<Json>): nat {
    if items == [] then 0 else Count(items[0]) + CountItems(items[1..])
  }

  ghost function ChildCounts(fields: Fields): map<string, nat> {
    map k | k in fields :: Count(fields[k])
  }

  lemma {:induction false} TotalRemove(counts: map<string, nat>, k: string)
    requires k in counts
    ensures Total(counts) == counts[k] + Total(counts - {k})
    decreases |counts|
  {
    var first :| first in counts && Total(counts) == counts[first] + Total(counts - {first});
    if first != k {
      assert (counts - {first}).Keys == counts.Keys - {first};
      assert |counts - {first}| < |counts| by { assert |(counts - {first}).Keys| < |counts.Keys|; }
      TotalRemove(counts - {first}, k);
      assert (counts - {first}) - {k} == (counts - {k}) - {first};
      assert (counts - {k}).Keys == counts.Keys - {k};
      assert |counts - {k}| < |counts| by { assert |(counts - {k}).Keys| < |counts.Keys|; }
      TotalRemove(counts - {k}, first);
    }
  }

  /** Taking one key out of a dict takes its count out of the sum. */
  lemma ChildRemoved(fields: Fields, k: string)
    requires k in fields
    ensures Total(ChildCounts(fields)) == Count(fields[k]) + Total(ChildCounts(fields - {k}))
  {
    TotalRemove(ChildCounts(fields), k);
    assert ChildCounts(fields) - {k} == ChildCounts(fields - {k});
  }

  lemma ChildReplaced(fields: Fields, k: string, value: Json)
    ensures Total(ChildCounts(fields[k := value])) + (if k in fields then Count(fields[k]) else 0)
         == Total(ChildCounts(fields)) + Count(value)
  {
    ChildRemoved(fields[k := value], k);
    assert fields[k := value] - {k} == fields - {k};
    if k in fields { ChildRemoved(fields, k); } else { assert fields - {k} == fields; }
  }

  lemma CountFields(fields: Fields)
    ensures Count(Obj(fields)) == ActiveHere(fields) + Total(ChildCounts(fields))
  {
    assert ChildCounts(fields) == map k | k in fields :: Count(fields[k]);
  }

  function One(b: bool): nat {
    if b then 1 else 0
  }

  lemma ActiveRemoved(entities: Fields, k: string)
    requires k in entities
    ensures |ActiveKeys(entities)| == One(IsActive(entities[k])) + |ActiveKeys(entities - {k})|
  {
    var before, after := ActiveKeys(entities), ActiveKeys(entities - {k});
    assert after == before - {k};
    assert k in before ==> before == after + {k};
  }

  lemma ActiveReplaced(entities: Fields, k: string, value: Json)
    ensures |ActiveKeys(entities[k := value])| + One(k in entities && IsActive(entities[k]))
         == |ActiveKeys(entities)| + One(IsActive(value))
  {
    ActiveRemoved(entities[k := value], k);
    assert entities[k := value] - {k} == entities - {k};
    if k in entities { ActiveRemoved(entities, k); } else { assert entities - {k} == entities; }
  }

  /** What replacing the dict under one key does to the count of the whole dict. */
  lemma CountReplaced(fields: Fields, k: string, old': Fields, new': Fields)
    requires old' == SubFields(fields, k) && k in fields && fields[k] == Obj(old')
    ensures Count(Obj(fields[k := Obj(new')])) + Count(Obj(old')) + (if k == "entities" then |ActiveKeys(old')| else 0)
         == Count(Obj(fields)) + Count(Obj(new')) + (if k == "entities" then |ActiveKeys(new')| else 0)
  {
    CountFields(fields);
    CountFields(fields[k := Obj(new')]);
    ChildReplaced(fields, k, Obj(new'));
  }

  /** The path runs through dicts all the way. */
  predicate HasContainer(fields: Fields, path: seq<string>)
    decreases path
  {
    path == [] || (path[0] in fields && fields[path[0]].Obj? && HasContainer(fields[path[0]].fields, path[1..]))
  }

  predicate EndsInEntities(path: seq<string>) {
    path != [] && path[|path| - 1] == "entities"
  }

  /** An edit strictly below a dict leaves the same of its entries active. */
  lemma InnerActive(fields: Fields, path: seq<string>, content: Fields)
    requires path != [] && HasContainer(fields, path)
    requires Field(content, "status") == Field(Container(fields, path), "status")
    ensures |ActiveKeys(WithContainer(fields, path, content))| == |ActiveKeys(fields)|
    decreases path
  {
    var k := path[0];
    var inner := SubFields(fields, k);
    var inner' := WithContainer(inner, path[1..], content);
    StatusKept(inner, path[1..], content);
    ActiveReplaced(fields, k, Obj(inner'));
  }

  lemma StatusKept(fields: Fields, path: seq<string>, content: Fields)
    requires HasContainer(fields, path)
    requires Field(content, "status") == Field(Container(fields, path), "status")
    ensures IsActive(Obj(WithContainer(fields, path, content))) <==> IsActive(Obj(fields))
  {
    if path != [] && path[0] == "status" {
      assert Field(fields, "status").Obj?;
    }
  }

  /** The entries that count as entities because the path to their dict ends in `entities`. */
  function EntriesAt(path: seq<string>, content: Fields): nat {
    if EndsInEntities(path) then |ActiveKeys(content)| else 0
  }

  /** What replacing the dict at a path, without touching its status, does to the count of
      the whole tree: its own count changes, and its entries count as entities when the
      path itself ends in `entities`. */
  lemma {:induction false} CountAtPath(fields: Fields, path: seq<string>, content: Fields)
    requires HasContainer(fields, path)
    requires Field(content, "status") == Field(Container(fields, path), "status")
    ensures Count(Obj(WithContainer(fields, path, content)))
            + Count(Obj(Container(fields, path))) + EntriesAt(path, Container(fields, path))
         == Count(Obj(fields)) + Count(Obj(content)) + EntriesAt(path, content)
    decreases path
  {
    if path != [] {
      var k, rest := path[0], path[1..];
      var inner := SubFields(fields, k);
      CountAtPath(inner, rest, content);
      CountReplaced(fields, k, inner, WithContainer(inner, rest, content));
      if rest != [] {
        assert EndsInEntities(path) <==> EndsInEntities(rest);
        InnerActive(inner, rest, content);
      }
    }
  }

  lemma EntityHasContainer(fields: Fields, scope: seq<string>, id: string)
    requires Entity(fields, scope, id).Some?
    ensures HasContainer(fields, scope)
    decreases scope
  {
    if scope != [] {
      if !(scope[0] in fields && fields[scope[0]].Obj?) { EmptyContainer(scope[1..], ["entities"]); }
      EntityHasContainer(SubFields(fields, scope[0]), scope[1..], id);
    }
  }

  /** What deleting one entity does to its container. */
  lemma CountWithoutEntity(container: Fields, id: string)
    requires id in SubFields(container, "entities") && SubFields(container, "entities")[id].Obj?
    ensures var entity := SubFields(container, "entities")[id];
            Count(Obj(container)) == Count(Obj(WithoutEntity(container, id))) + Count(entity) + One(IsActive(entity))
                                     + (if id == "entities" then |ActiveKeys(entity.fields)| else 0)
  {
    var before := SubFields(container, "entities");
    var after := before - {id};
    var entity := before[id];
    CountFields(container);
    ChildRemoved(container, "entities");
    CountFields(before);
    ChildRemoved(before, id);
    CountFields(after);
    ActiveRemoved(before, id);
    assert ActiveHere(before) == ActiveHere(after) + (if id == "entities" then |ActiveKeys(entity.fields)| else 0) by {
      if id == "entities" { assert SubFields(after, "entities") == map[]; }
    }
    if after == map[] {
      CountFields(container - {"entities"});
      EmptyCounts();
    } else {
      var container' := container["entities" := Obj(after)];
      CountFields(container');
      ChildReplaced(container, "entities", Obj(after));
    }
  }

  lemma EmptyCounts()
    ensures Count(Obj(map[])) == 0 && ActiveKeys(map[]) == {} && Total(ChildCounts(map[])) == 0
  {
    CountFields(map[]);
    assert ActiveKeys(map[]) == {};
    assert ChildCounts(map[]) == map[];
  }

  lemma ActiveWithoutEntity(container: Fields, id: string)
    requires id in SubFields(container, "entities") && SubFields(container, "entities")[id].Obj?
    ensures var entities := SubFields(container, "entities");
            |ActiveKeys(container)| == |ActiveKeys(WithoutEntity(container, id))|
                                       + One(IsActive(Obj(entities)) && entities - {id} == map[])
  {
    var entities := SubFields(container, "entities");
    var after := entities - {id};
    assert container["entities"] == Obj(entities);
    if after == map[] {
      ActiveRemoved(container, "entities");
    } else {
      ActiveReplaced(container, "entities", Obj(after));
      assert IsActive(Obj(after)) <==> IsActive(Obj(entities));
    }
  }

  /** Deleting an entity lowers the count by the entities nested in it, by one if it was
      active itself, by its own entries if it sat under the key `entities`, and by one more
      if the `entities` dict it leaves empty was in turn counted as an entity. */
  lemma DeleteLowersCount(fields: Fields, scope: seq<string>, id: string)
    requires Entity(fields, scope, id).Some?
    ensures var entity := Entity(fields, scope, id).value;
            var entities := SubFields(Container(fields, scope), "entities");
            Count(Obj(fields)) ==
              Count(Obj(Deleted(fields, scope, id))) + Count(Obj(entity)) + One(IsActive(Obj(entity)))
              + (if id == "entities" then |ActiveKeys(entity)| else 0)
              + One(EndsInEntities(scope) && IsActive(Obj(entities)) && entities - {id} == map[])
  {
    var container := Container(fields, scope);
    EntityHasContainer(fields, scope, id);
    CountWithoutEntity(container, id);
    ActiveWithoutEntity(container, id);
    CountAtPath(fields, scope, WithoutEntity(container, id));
  }

  /** The plain case: no `entities` at the end of the scope or as the identifier. */
  lemma DeleteLowersCountPlainly(fields: Fields, scope: seq<string>, id: string)
    requires Entity(fields, scope, id).Some? && !EndsInEntities(scope) && id != "entities"
    ensures var entity := Entity(fields, scope, id).value;
            Count(Obj(fields)) == Count(Obj(Deleted(fields, scope, id))) + Count(Obj(entity)) + One(IsActive(Obj(entity)))
  {
    DeleteLowersCount(fields, scope, id);
  }

  // ------------------------------------------------------------------
  // Correcting and deleting undo one another
  // ------------------------------------------------------------------

  /** Deleting an entity right after it was first added gives the tree back exactly when the
      container was there and its `entities` was absent or a dict with something in it:
      otherwise the containers made on the way stay, or what `entities` held is lost. */
  lemma DeleteUndoesCorrect(fields: Fields, scope: seq<string>, id: string, entity: Json)
    requires entity.Obj? && id !in SubFields(Container(fields, scope), "entities")
    ensures Deleted(Corrected(fields, scope, id, entity), scope, id) == fields
       <==> HasContainer(fields, scope)
            && ("entities" in Container(fields, scope) ==> SubFields(Container(fields, scope), "entities") != map[])
  {
    var container := Container(fields, scope);
    var entities := SubFields(container, "entities");
    var edited := container["entities" := Obj(entities[id := entity])];
    var back := WithoutEntity(edited, id);
    ContainerLaws(fields, scope, edited, back);
    assert entities[id := entity] - {id} == entities;
    assert back == if entities == map[] then container - {"entities"} else container["entities" := Obj(entities)];
    assert back == container <==> ("entities" in container ==> entities != map[]);
    PutBack(fields, scope, back);
  }

  /** Putting a dict at a path gives the same tree exactly when it was already there. */
  lemma {:induction false} PutBack(fields: Fields, path: seq<string>, content: Fields)
    ensures WithContainer(fields, path, content) == fields
       <==> HasContainer(fields, path) && Container(fields, path) == content
    decreases path
  {
    if path != [] {
      var k := path[0];
      PutBack(SubFields(fields, k), path[1..], content);
      if WithContainer(fields, path, content) == fields {
        assert k in fields && fields[k] == Obj(WithContainer(SubFields(fields, k), path[1..], content));
      }
    }
  }

  // ------------------------------------------------------------------
  // The walking forms
  // ------------------------------------------------------------------

  function ValueAt(j: Json, path: seq<string>): Json {
    match At(j, path) case Some(v) => v case None => Null
  }

  lemma {:induction false} AtAppend(j: Json, path: seq<string>, key: string)
    ensures At(j, path + [key]) ==
            match At(j, path)
            case Some(v) => if v.Obj? && key in v.fields then Some(v.fields[key]) else None
            case None => None
    decreases |path|
  {
    if path != [] {
      assert (path + [key])[1..] == path[1..] + [key];
      if j.Obj? && path[0] in j.fields { AtAppend(j.fields[path[0]], path[1..], key); }
    } else {
      assert (path + [key])[1..] == [];
    }
  }

  lemma {:induction false} NothingBelow(j: Json, path: seq<string>, more: seq<string>)
    requires more != [] && !ValueAt(j, path).Obj?
    ensures At(j, path + more) == None
    decreases |path|
  {
    if path != [] {
      assert (path + more)[1..] == path[1..] + more;
      if j.Obj? && path[0] in j.fields { NothingBelow(j.fields[path[0]], path[1..], more); }
    } else {
      assert path + more == more;
    }
  }

  /** The walk of _extract_patch_value: null where the path leaves the payload. */
  method FollowPath(payload: Json, segments: seq<string>) returns (value: Json)
    ensures value == ValueAt(payload, segments)
  {
    value := payload;
    var i := 0;
    assert segments[..0] == [];
    while i < |segments|
      invariant 0 <= i <= |segments|
      invariant value == ValueAt(payload, segments[..i])
    {
      ghost var walked := segments[..i];
      if !value.Obj? {
        NothingBelow(payload, walked, segments[i..]);
        assert walked + segments[i..] == segments;
        return Null;
      }
      AtAppend(payload, walked, segments[i]);
      assert segments[..i + 1] == walked + [segments[i]];
      value := Field(value.fields, segments[i]);
      i := i + 1;
    }
    assert segments[..i] == segments;
  }

  /** _extract_patch_value */
  method ExtractPatchValue(payload: Fields, path: string) returns (value: Json)
    ensures value == ValueAt(Obj(payload), PathSegments(path))
  {
    NormalizedPath(path);
    if NormalizePath(path) == "" {
      value := Obj(payload);
    } else {
      value := FollowPath(Obj(payload), Split(NormalizePath(path), '.'));
    }
  }

  /** _count_entities: a loop over the entities of a dict, one over its values, one over a list. */
  method CountEntities(value: Json) returns (total: nat)
    ensures total == Count(value)
    decreases value, 1
  {
    match value {
      case Obj(fields) =>
        assert value == Obj(fields);
        CountFields(fields);
        var active := 0;
        if "entities" in fields && fields["entities"].Obj? {
          active := CountActive(fields["entities"].fields);
        } else {
          EmptyCounts();
        }
        var inner := CountValues(fields);
        total := active + inner;
      case Arr(items) =>
        total := 0;
        var i := |items|;
        while i > 0
          invariant 0 <= i <= |items|
          invariant total == CountItems(items[i..])
        {
          i := i - 1;
          var count := CountEntities(items[i]);
          assert items[i..][1..] == items[i + 1..];
          total := total + count;
        }
        assert items[0..] == items;
      case _ =>
        total := 0;
    }
  }

  method CountValues(fields: Fields) returns (total: nat)
    ensures total == Total(ChildCounts(fields))
    decreases Obj(fields), 0
  {
    total := 0;
    var pending := fields.Keys;
    EmptyCounts();
    assert Without(fields, fields.Keys) == map[];
    while pending != {}
      invariant pending <= fields.Keys
      invariant total == Total(ChildCounts(Without(fields, pending)))
      decreases pending
    {
      var key :| key in pending;
      var count := CountEntities(fields[key]);
      ChildRemoved(Without(fields, pending - {key}), key);
      assert Without(fields, pending - {key}) - {key} == Without(fields, pending);
      total := total + count;
      pending := pending - {key};
    }
    assert Without(fields, {}) == fields;
  }

  function Without(fields: Fields, keys: set<string>): Fields {
    fields - keys
  }

  method CountActive(entities: Fields) returns (total: nat)
    ensures total == |ActiveKeys(entities)|
  {
    total := 0;
    var pending := entities.Keys;
    assert ActiveKeys(Without(entities, entities.Keys)) == {};
    while pending != {}
      invariant pending <= entities.Keys
      invariant total == |ActiveKeys(Without(entities, pending))|
      decreases pending
    {
      var key :| key in pending;
      ActiveRemoved(Without(entities, pending - {key}), key);
      assert Without(entities, pending - {key}) - {key} == Without(entities, pending);
      if IsActive(entities[key]) { total := total + 1; }
      pending := pending - {key};
    }
    assert Without(entities, {}) == entities;
  }
}

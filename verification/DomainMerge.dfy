/** _deep_merge of scripts/local_pkm_core_path_smoke.py: the loop, the function it
    computes, and the laws of that function over all JSON trees. */
module DomainMerge {
  import opened Text
  import opened Json

  /** Objects merge key by key; anything else is replaced by the patch. */
  function Merge(base: Json, patch: Json): Json
    decreases patch
  {
    if base.Obj? && patch.Obj? then
      Obj(map k | k in base.fields.Keys + patch.fields.Keys ::
            if k !in patch.fields then base.fields[k]
            else if k in base.fields then Merge(base.fields[k], patch.fields[k])
            else patch.fields[k])
    else patch
  }

  /** _deep_merge: the keys of the patch are visited in some order and written into a
      copy of the base. */
  method DeepMerge(base: Json, patch: Json) returns (merged: Json)
    ensures merged == Merge(base, patch)
    decreases patch
  {
    if base.Obj? && patch.Obj? {
      var fields := base.fields;
      var pending := patch.fields.Keys;
      while pending != {}
        invariant pending <= patch.fields.Keys
        invariant fields.Keys == base.fields.Keys + (patch.fields.Keys - pending)
        invariant forall k :: k in fields ==>
          fields[k] == if k in pending then base.fields[k] else Merge(base, patch).fields[k]
        decreases pending
      {
        var key :| key in pending;
        pending := pending - {key};
        if key in fields {
          var value := DeepMerge(fields[key], patch.fields[key]);
          fields := fields[key := value];
        } else {
          fields := fields[key := patch.fields[key]];
        }
      }
      merged := Obj(fields);
      assert fields == Merge(base, patch).fields;
    } else {
      merged := patch;
    }
  }

  // ------------------------------------------------------------------
  // Laws
  // ------------------------------------------------------------------

  /** The value the merge holds under one key. */
  function MergedField(base: map<string, Json>, patch: map<string, Json>, k: string): Json
    requires k in base || k in patch
  {
    if k !in patch then base[k] else if k in base then Merge(base[k], patch[k]) else patch[k]
  }

  lemma MergeFields(base: map<string, Json>, patch: map<string, Json>, other: map<string, Json>)
    requires other.Keys == base.Keys + patch.Keys
    requires forall k :: k in other ==> other[k] == MergedField(base, patch, k)
    ensures Merge(Obj(base), Obj(patch)) == Obj(other)
  {
    var merged := Merge(Obj(base), Obj(patch)).fields;
    assert merged.Keys == other.Keys;
    forall k | k in other ensures merged[k] == other[k] {
      assert merged[k] == MergedField(base, patch, k);
    }
    assert merged == other;
  }

  /** Merging a tree into itself changes nothing. */
  lemma {:induction false} MergeSelf(a: Json)
    ensures Merge(a, a) == a
  {
    if a.Obj? {
      forall k | k in a.fields ensures Merge(a.fields[k], a.fields[k]) == a.fields[k] { MergeSelf(a.fields[k]); }
      MergeFields(a.fields, a.fields, a.fields);
    }
  }

  /** The empty object is neutral on both sides of an object. */
  lemma MergeEmpty(a: Json)
    requires a.Obj?
    ensures Merge(a, Obj(map[])) == a && Merge(Obj(map[]), a) == a
  {
    MergeFields(a.fields, map[], a.fields);
    MergeFields(map[], a.fields, a.fields);
  }

  /** The base has nothing of its own: where an object of it meets an object of the patch, every
      key it has is a key of the patch too. */
  predicate Absorbed(base: Json, patch: Json)
    decreases patch
  {
    base.Obj? && patch.Obj? ==>
      forall k :: k in base.fields ==> k in patch.fields && Absorbed(base.fields[k], patch.fields[k])
  }

  lemma {:induction false} MergeAbsorbs(base: Json, patch: Json)
    ensures Merge(base, patch) == patch <==> Absorbed(base, patch)
    decreases patch
  {
    if base.Obj? && patch.Obj? {
      forall k | k in base.fields && k in patch.fields
        ensures Merge(base.fields[k], patch.fields[k]) == patch.fields[k] <==> Absorbed(base.fields[k], patch.fields[k])
      {
        MergeAbsorbs(base.fields[k], patch.fields[k]);
      }
      if Absorbed(base, patch) {
        MergeFields(base.fields, patch.fields, patch.fields);
      } else {
        var k :| k in base.fields && !(k in patch.fields && Absorbed(base.fields[k], patch.fields[k]));
        assert k in Merge(base, patch).fields;
      }
    }
  }

  /** Applying the same patch twice is applying it once. */
  lemma {:induction false} MergeTwice(base: Json, patch: Json)
    ensures Merge(Merge(base, patch), patch) == Merge(base, patch)
    decreases patch
  {
    if base.Obj? && patch.Obj? {
      var once := Merge(base, patch);
      forall k | k in patch.fields ensures Merge(once.fields[k], patch.fields[k]) == once.fields[k] {
        if k in base.fields { MergeTwice(base.fields[k], patch.fields[k]); } else { MergeSelf(patch.fields[k]); }
      }
      MergeFields(once.fields, patch.fields, once.fields);
    } else {
      MergeSelf(patch);
    }
  }

  /** No path holds an object in `a`, something else in `b`, and in `c` an object that lacks
      part of the one in `a`: there the right-nested merge would bring that part back. */
  predicate Associates(a: Json, b: Json, c: Json)
    decreases c
  {
    if a.Obj? && c.Obj? then
      if b.Obj? then
        forall k :: k in a.fields && k in b.fields && k in c.fields ==>
          Associates(a.fields[k], b.fields[k], c.fields[k])
      else Absorbed(a, c)
    else true
  }

  /** Merging is associative on exactly those triples. */
  lemma {:induction false} MergeAssociative(a: Json, b: Json, c: Json)
    ensures Merge(Merge(a, b), c) == Merge(a, Merge(b, c)) <==> Associates(a, b, c)
    decreases c
  {
    if a.Obj? && c.Obj? {
      if b.Obj? {
        AssociativeObjects(a, b, c);
      } else {
        MergeAbsorbs(a, c);
      }
    }
  }

  lemma AssociativeObjects(a: Json, b: Json, c: Json)
    requires a.Obj? && b.Obj? && c.Obj?
    ensures Merge(Merge(a, b), c) == Merge(a, Merge(b, c)) <==> Associates(a, b, c)
    decreases c, 0
  {
    var left, right := Merge(Merge(a, b), c), Merge(a, Merge(b, c));
    assert left.fields.Keys == right.fields.Keys;
    forall k | k in left.fields
      ensures k in a.fields && k in b.fields && k in c.fields ==>
                (left.fields[k] == right.fields[k] <==> Associates(a.fields[k], b.fields[k], c.fields[k]))
      ensures !(k in a.fields && k in b.fields && k in c.fields) ==> left.fields[k] == right.fields[k]
    {
      if k in a.fields && k in b.fields && k in c.fields {
        MergeAssociative(a.fields[k], b.fields[k], c.fields[k]);
      }
    }
    if Associates(a, b, c) {
      assert left.fields == right.fields;
    } else {
      var k :| k in a.fields && k in b.fields && k in c.fields && !Associates(a.fields[k], b.fields[k], c.fields[k]);
      assert k in left.fields;
      assert left.fields[k] != right.fields[k];
    }
  }

  /** An object replaced by a scalar and then patched with an object comes back. */
  lemma NotAlwaysAssociative()
    ensures var a, c := Obj(map["x" := Null]), Obj(map[]);
            Merge(Merge(a, Null), c) == c && Merge(a, Merge(Null, c)) == a && a != c
  {
    MergeEmpty(Obj(map["x" := Null]));
    assert "x" in Obj(map["x" := Null]).fields;
  }

  // ------------------------------------------------------------------
  // Path lookup in the result
  // ------------------------------------------------------------------

  /** The path runs through objects of `j` and ends at a key the last of them lacks. */
  predicate FallsOff(j: Json, path: seq<string>)
    decreases |path|
  {
    path != [] && j.Obj? && (path[0] in j.fields ==> FallsOff(j.fields[path[0]], path[1..]))
  }

  /** Lookup in the merge, for every path: where the patch ends at something other than an
      object that is the result; where it ends at an object the two subtrees merge; where
      its objects lack the key the base answers; and where one of its other values cuts the
      path there is nothing. */
  lemma {:induction false} MergeAt(base: Json, patch: Json, path: seq<string>)
    ensures At(Merge(base, patch), path) ==
            match At(patch, path)
            case Some(p) =>
              (match At(base, path)
               case Some(b) => Some(Merge(b, p))
               case None => Some(p))
            case None => if FallsOff(patch, path) then At(base, path) else None
    decreases |path|
  {
    if path != [] && base.Obj? && patch.Obj? {
      var k := path[0];
      if k in base.fields && k in patch.fields {
        MergeAt(base.fields[k], patch.fields[k], path[1..]);
      } else if k in base.fields {
        assert Merge(base, patch).fields[k] == base.fields[k];
      }
    }
  }
}

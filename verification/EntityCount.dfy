/** What _count_entities counts: the places of a tree at which an entity stands that is not deleted
    (scripts/local_pkm_core_path_smoke.py). */
module EntityCount {
  import opened Text
  import opened Json
  import opened EntityEdit

  /** A step down a tree: to the value of a key, or to an item of a list. */
  datatype Step = Key(name: string) | Item(position: nat)

  function Follow(j: Json, place: seq<Step>): Option<Json>
    decreases |place|
  {
    if place == [] then Some(j)
    else
      match place[0]
      case Key(name) => if j.Obj? && name in j.fields then Follow(j.fields[name], place[1..]) else None
      case Item(i) => if j.Arr? && i < |j.items| then Follow(j.items[i], place[1..]) else None
  }

  /** A dict under a key of an "entities" dict, at any depth and through any list, whose status is
      not "deleted". */
  ghost predicate EntityAt(j: Json, place: seq<Step>) {
    && |place| >= 2 && place[|place| - 2] == Key("entities") && place[|place| - 1].Key?
    && Follow(j, place).Some? && Follow(j, place).value.Obj?
    && (var entity := Follow(j, place).value.fields; "status" in entity ==> entity["status"] != Str("deleted"))
  }

  ghost predicate AreTheEntities(j: Json, places: set<seq<Step>>) {
    forall place :: place in places <==> EntityAt(j, place)
  }

  /** The count is the number of places at which such an entity stands. */
  lemma CountMeaning(j: Json)
    ensures exists places :: AreTheEntities(j, places) && |places| == Count(j)
  {
    forall place ensures place in Places(j) <==> EntityAt(j, place) { PlacesExactly(j, place); }
    PlacesCounted(j);
    assert AreTheEntities(j, Places(j));
  }

  // ------------------------------------------------------------------
  // The places, collected
  // ------------------------------------------------------------------

  ghost function Here(fields: Fields): set<seq<Step>> {
    set id | id in ActiveKeys(SubFields(fields, "entities")) :: [Key("entities"), Key(id)]
  }

  ghost function After(s: Step, places: set<seq<Step>>): set<seq<Step>> {
    set p | p in places :: [s] + p
  }

  ghost function Places(j: Json): set<seq<Step>>
    decreases j, 0
  {
    match j
    case Obj(fields) => Here(fields) + set k, p | k in fields && p in Places(fields[k]) :: [Key(k)] + p
    case Arr(items) => ItemPlaces(items, 0)
    case _ => {}
  }

  ghost function ItemPlaces(items: seq<Json>, from: nat): set<seq<Step>>
    decreases items, 1
  {
    if items == [] then {} else After(Item(from), Places(items[0])) + ItemPlaces(items[1..], from + 1)
  }

  ghost function Below(fields: Fields): set<seq<Step>> {
    set k, p | k in fields && p in Places(fields[k]) :: [Key(k)] + p
  }

  /** Below the first step, an entity's place is a place of the child. */
  lemma EntityBelow(j: Json, child: Json, s: Step, rest: seq<Step>)
    requires |rest| >= 2 && Follow(j, [s]) == Some(child)
    ensures EntityAt(j, [s] + rest) <==> EntityAt(child, rest)
  {
    var place := [s] + rest;
    assert place[1..] == rest;
    assert place[|place| - 2] == rest[|rest| - 2] && place[|place| - 1] == rest[|rest| - 1];
    assert [s][1..] == [];
  }

  lemma ShortPlace(fields: Fields, place: seq<Step>)
    requires |place| == 2
    ensures place in Here(fields) <==> EntityAt(Obj(fields), place)
  {
    var inner := place[1..];
    assert inner[1..] == [] && inner[0] == place[1];
    assert place == [place[0], place[1]];
    if place[0] == Key("entities") && place[1].Key? {
      var entities, id := SubFields(fields, "entities"), place[1].name;
      assert place == [Key("entities"), Key(id)];
      assert place in Here(fields) <==> id in ActiveKeys(entities) by {
        if other :| other in ActiveKeys(entities) && place == [Key("entities"), Key(other)] { assert place[1] == Key(other); }
      }
      if "entities" in fields {
        assert Follow(Obj(fields), place) == Follow(fields["entities"], inner);
        if id in entities { assert Follow(fields["entities"], inner) == Follow(entities[id], inner[1..]) == Some(entities[id]); }
      }
    }
  }

  lemma {:induction false} PlacesExactly(j: Json, place: seq<Step>)
    ensures place in Places(j) <==> EntityAt(j, place)
    decreases j, |place|
  {
    match j {
      case Obj(fields) =>
        assert Places(j) == Here(fields) + Below(fields);
        ObjectPlaces(fields, place);
      case Arr(items) =>
        ListPlaces(items, place);
      case _ =>
    }
  }

  lemma {:induction false} ObjectPlaces(fields: Fields, place: seq<Step>)
    ensures place in Here(fields) + Below(fields) <==> EntityAt(Obj(fields), place)
    decreases Obj(fields), |place|, 0
  {
    if |place| == 2 { ShortPlace(fields, place); }
    if place != [] && place[0].Key? && place[0].name in fields {
      var k, rest := place[0].name, place[1..];
      assert place == [Key(k)] + rest && [Key(k)][1..] == [];
      PlacesExactly(fields[k], rest);
      assert place in Below(fields) <==> rest in Places(fields[k]) by { BelowAt(fields, k, rest); }
      if |rest| >= 2 { EntityBelow(Obj(fields), fields[k], Key(k), rest); }
    }
  }

  lemma {:induction false} ListPlaces(items: seq<Json>, place: seq<Step>)
    ensures place in ItemPlaces(items, 0) <==> EntityAt(Arr(items), place)
    decreases Arr(items), |place|, 0
  {
    ItemsExactly(items, 0, place);
    if place != [] && place[0].Item? && place[0].position < |items| {
      var i, rest := place[0].position, place[1..];
      assert place == [Item(i)] + rest && [Item(i)][1..] == [];
      PlacesExactly(items[i], rest);
      if |rest| >= 2 { EntityBelow(Arr(items), items[i], Item(i), rest); }
    } else {
      assert EntityAt(Arr(items), place) ==> Follow(Arr(items), place) == None;
    }
  }

  lemma BelowAt(fields: Fields, k: string, rest: seq<Step>)
    requires k in fields
    ensures [Key(k)] + rest in Below(fields) <==> rest in Places(fields[k])
  {
    if k', p :| k' in fields && p in Places(fields[k']) && [Key(k)] + rest == [Key(k')] + p {
      assert ([Key(k)] + rest)[0] == Key(k') && ([Key(k)] + rest)[1..] == p;
    }
  }

  lemma {:induction false} ItemsExactly(items: seq<Json>, from: nat, place: seq<Step>)
    ensures place in ItemPlaces(items, from)
       <==> place != [] && place[0].Item? && from <= place[0].position < from + |items|
            && place[1..] in Places(items[place[0].position - from])
  {
    if items != [] {
      ItemsExactly(items[1..], from + 1, place);
      if place != [] { assert place == [place[0]] + place[1..]; }
      if p :| p in Places(items[0]) && place == [Item(from)] + p { assert place[1..] == p; }
    }
  }

  // ------------------------------------------------------------------
  // Their number
  // ------------------------------------------------------------------

  lemma {:induction false} AfterCounted(s: Step, places: set<seq<Step>>)
    ensures |After(s, places)| == |places|
  {
    if places != {} {
      var p :| p in places;
      AfterCounted(s, places - {p});
      forall q | q in places && [s] + q == [s] + p ensures q == p { assert ([s] + q)[1..] == q && ([s] + p)[1..] == p; }
      assert [s] + p !in After(s, places - {p});
      assert After(s, places) == After(s, places - {p}) + {[s] + p};
    }
  }

  lemma {:induction false} HereCounted(keys: set<string>)
    ensures |set id | id in keys :: [Key("entities"), Key(id)]| == |keys|
  {
    var places := set id | id in keys :: [Key("entities"), Key(id)];
    if keys != {} {
      var k :| k in keys;
      HereCounted(keys - {k});
      var fewer := set id | id in keys - {k} :: [Key("entities"), Key(id)];
      assert places == fewer + {[Key("entities"), Key(k)]};
      assert forall id | id in keys - {k} :: [Key("entities"), Key(id)][1] != [Key("entities"), Key(k)][1];
      assert [Key("entities"), Key(k)] !in fewer;
    }
  }

  lemma {:induction false} PlacesCounted(j: Json)
    ensures |Places(j)| == Count(j)
    decreases j, 1, 0
  {
    match j {
      case Obj(fields) =>
        HereCounted(ActiveKeys(SubFields(fields, "entities")));
        BelowCounted(j, fields);
        CountFields(fields);
        forall p | p in Here(fields) ensures p !in Below(fields) {
          if k, rest :| k in fields && rest in Places(fields[k]) && p == [Key(k)] + rest { PlacesExactly(fields[k], rest); }
        }
        assert Places(j) == Here(fields) + Below(fields);
      case Arr(items) => ItemsCounted(items, 0);
      case _ =>
    }
  }

  lemma {:induction false} BelowCounted(j: Json, fields: Fields)
    requires j.Obj? && forall k :: k in fields ==> k in j.fields && fields[k] == j.fields[k]
    ensures |Below(fields)| == Total(ChildCounts(fields))
    decreases j, 0, |fields|
  {
    if fields != map[] {
      var k :| k in fields;
      var others := fields - {k};
      assert others.Keys == fields.Keys - {k};
      assert |others| < |fields| by { assert |others.Keys| < |fields.Keys|; }
      BelowCounted(j, others);
      PlacesCounted(fields[k]);
      ChildRemoved(fields, k);
      AfterCounted(Key(k), Places(fields[k]));
      BelowSplits(fields, k);
    }
  }

  lemma BelowSplits(fields: Fields, k: string)
    requires k in fields
    ensures |Below(fields)| == |After(Key(k), Places(fields[k]))| + |Below(fields - {k})|
  {
    var here, others := After(Key(k), Places(fields[k])), Below(fields - {k});
    forall p | p in here ensures p !in others {
      if k', rest :| k' in fields - {k} && rest in Places((fields - {k})[k']) && p == [Key(k')] + rest { assert p[0] == Key(k'); }
    }
    assert Below(fields) == here + others;
  }

  lemma {:induction false} ItemsCounted(items: seq<Json>, from: nat)
    ensures |ItemPlaces(items, from)| == CountItems(items)
    decreases items, 0, 0
  {
    if items != [] {
      PlacesCounted(items[0]);
      ItemsCounted(items[1..], from + 1);
      AfterCounted(Item(from), Places(items[0]));
      forall p | p in ItemPlaces(items[1..], from + 1) ensures p !in After(Item(from), Places(items[0])) {
        ItemsExactly(items[1..], from + 1, p);
      }
    }
  }
}

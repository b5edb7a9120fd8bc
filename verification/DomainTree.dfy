/** The in-place form of the entity edits: a domain tree as mutable dicts that refer to one
    another, a cursor walked down them, and updates made through the cursor. Every method
    is tied to the edit functions of EntityEdit by the value the root dict then has. */
module DomainTree {
  import opened Text
  import opened Json
  import opened DomainMerge
  import opened EntityEdit
  import opened PreviewEdit

  /** A Python dict: its entries are values, or references to other dicts. */
  class Dict {
    var items: map<string, Entry>

    constructor (items: map<string, Entry>)
      ensures this.items == items
    {
      this.items := items;
    }
  }

  datatype Entry = Plain(value: Json) | Ref(dict: Dict)

  // ------------------------------------------------------------------
  // Trees of dicts
  // ------------------------------------------------------------------

  /** The references of a tree of dicts, followed all the way down. */
  datatype Shape = Shape(node: Dict, kids: map<string, Shape>)

  /** The entries of some dicts at one moment. */
  type Store = map<Dict, map<string, Entry>>

  ghost function Nodes(sh: Shape): set<Dict> {
    {sh.node} + set k, d | k in sh.kids && d in Nodes(sh.kids[k]) :: d
  }

  /** The entries of one dict are its references in the shape and plain values. */
  ghost predicate NodeFits(node: Dict, kids: map<string, Shape>, st: Store) {
    && node in st
    && kids.Keys <= st[node].Keys
    && (forall k :: k in st[node] ==>
          if k in kids then st[node][k] == Ref(kids[k].node) else st[node][k].Plain? && !st[node][k].value.Obj?)
  }

  ghost predicate Fits(sh: Shape, st: Store) {
    NodeFits(sh.node, sh.kids, st) && forall k :: k in sh.kids ==> Fits(sh.kids[k], st)
  }

  /** No dict is reached twice. */
  ghost predicate Distinct(sh: Shape) {
    && (forall k :: k in sh.kids ==> sh.node !in Nodes(sh.kids[k]) && Distinct(sh.kids[k]))
    && (forall j, k :: j in sh.kids && k in sh.kids && j != k ==> Nodes(sh.kids[j]) !! Nodes(sh.kids[k]))
  }

  /** The JSON object a tree of dicts stands for. */
  ghost function Value(sh: Shape, st: Store): Fields
    requires Fits(sh, st)
  {
    map k | k in st[sh.node] :: if k in sh.kids then Obj(Value(sh.kids[k], st)) else st[sh.node][k].value
  }

  ghost predicate Agree(nodes: set<Dict>, st: Store, st': Store) {
    forall d :: d in nodes ==> d in st && d in st' && st[d] == st'[d]
  }

  lemma KidNodes(sh: Shape, k: string)
    requires k in sh.kids
    ensures Nodes(sh.kids[k]) <= Nodes(sh) && sh.node in Nodes(sh)
  {
    forall d | d in Nodes(sh.kids[k]) ensures d in Nodes(sh) {}
  }

  /** A tree none of whose dicts changed keeps its value. */
  lemma {:induction false} FitsFrame(sh: Shape, st: Store, st': Store)
    requires Fits(sh, st) && Agree(Nodes(sh), st, st')
    ensures Fits(sh, st') && Value(sh, st') == Value(sh, st)
  {
    assert sh.node in Nodes(sh);
    forall k | k in sh.kids ensures Fits(sh.kids[k], st') && Value(sh.kids[k], st') == Value(sh.kids[k], st) {
      KidNodes(sh, k);
      FitsFrame(sh.kids[k], st, st');
    }
  }

  ghost predicate OnPath(sh: Shape, path: seq<string>)
    decreases path
  {
    path == [] || (path[0] in sh.kids && OnPath(sh.kids[path[0]], path[1..]))
  }

  ghost function SubShape(sh: Shape, path: seq<string>): Shape
    requires OnPath(sh, path)
    decreases path
  {
    if path == [] then sh else SubShape(sh.kids[path[0]], path[1..])
  }

  ghost function Put(sh: Shape, path: seq<string>, sub: Shape): Shape
    requires OnPath(sh, path)
    decreases path
  {
    if path == [] then sub
    else sh.(kids := sh.kids[path[0] := Put(sh.kids[path[0]], path[1..], sub)])
  }

  /** The subtree at a path is the container of the value at that path. */
  lemma {:induction false} SubShapeFits(sh: Shape, st: Store, path: seq<string>)
    requires Fits(sh, st) && Distinct(sh) && OnPath(sh, path)
    ensures var sub := SubShape(sh, path);
            Fits(sub, st) && Distinct(sub) && Nodes(sub) <= Nodes(sh) && Value(sub, st) == Container(Value(sh, st), path)
    decreases path
  {
    if path != [] {
      KidNodes(sh, path[0]);
      SubShapeFits(sh.kids[path[0]], st, path[1..]);
    }
  }

  lemma PutOnPath(sh: Shape, path: seq<string>, sub: Shape)
    requires OnPath(sh, path)
    ensures OnPath(Put(sh, path, sub), path) && SubShape(Put(sh, path, sub), path) == sub
    ensures path != [] ==> Put(sh, path, sub).node == sh.node
    decreases path
  {
    if path != [] { PutOnPath(sh.kids[path[0]], path[1..], sub); }
  }

  /** A tree with the subtree under one key exchanged. */
  ghost function PutKid(sh: Shape, k: string, kid: Shape): Shape {
    sh.(kids := sh.kids[k := kid])
  }

  lemma OtherKid(sh: Shape, k: string, j: string)
    requires Distinct(sh) && k in sh.kids && j in sh.kids && j != k
    ensures Nodes(sh.kids[j]) <= Nodes(sh) - Nodes(sh.kids[k])
  {
    KidNodes(sh, j);
    assert Nodes(sh.kids[j]) !! Nodes(sh.kids[k]);
  }

  lemma PutKidNodes(sh: Shape, k: string, kid: Shape)
    requires k in sh.kids && Distinct(sh)
    ensures Nodes(PutKid(sh, k, kid)) == (Nodes(sh) - Nodes(sh.kids[k])) + Nodes(kid)
  {
    var after := PutKid(sh, k, kid);
    forall d | d in Nodes(after) ensures d in (Nodes(sh) - Nodes(sh.kids[k])) + Nodes(kid) {
      if d != sh.node {
        var j :| j in after.kids && d in Nodes(after.kids[j]);
        if j != k { OtherKid(sh, k, j); }
      }
    }
    forall d | d in (Nodes(sh) - Nodes(sh.kids[k])) + Nodes(kid) ensures d in Nodes(after) {
      if d in Nodes(kid) {
        assert after.kids[k] == kid;
      } else if d != sh.node {
        var j :| j in sh.kids && d in Nodes(sh.kids[j]);
        assert j in after.kids && d in Nodes(after.kids[j]);
      }
    }
  }

  lemma PutKidDistinct(sh: Shape, k: string, kid: Shape)
    requires k in sh.kids && Distinct(sh) && Distinct(kid)
    requires Nodes(kid) !! (Nodes(sh) - Nodes(sh.kids[k]))
    ensures Distinct(PutKid(sh, k, kid))
  {
    var after := PutKid(sh, k, kid);
    assert sh.node in Nodes(sh) - Nodes(sh.kids[k]);
    forall j | j in sh.kids && j != k ensures Nodes(sh.kids[j]) !! Nodes(kid) {
      OtherKid(sh, k, j);
    }
  }

  lemma OtherKidsKept(sh: Shape, st: Store, k: string, st': Store)
    requires Fits(sh, st) && Distinct(sh) && k in sh.kids
    requires Agree(Nodes(sh) - Nodes(sh.kids[k]), st, st')
    ensures sh.node in st' && st'[sh.node] == st[sh.node]
    ensures forall j :: j in sh.kids && j != k ==>
              Fits(sh.kids[j], st') && Value(sh.kids[j], st') == Value(sh.kids[j], st)
  {
    assert sh.node in Nodes(sh) - Nodes(sh.kids[k]);
    forall j | j in sh.kids && j != k
      ensures Fits(sh.kids[j], st') && Value(sh.kids[j], st') == Value(sh.kids[j], st)
    {
      OtherKid(sh, k, j);
      FitsFrame(sh.kids[j], st, st');
    }
  }

  lemma PutKidFits(sh: Shape, st: Store, k: string, kid: Shape, st': Store)
    requires Fits(sh, st) && Distinct(sh) && k in sh.kids
    requires kid.node == sh.kids[k].node && Fits(kid, st')
    requires Agree(Nodes(sh) - Nodes(sh.kids[k]), st, st')
    ensures Fits(PutKid(sh, k, kid), st')
    ensures Value(PutKid(sh, k, kid), st') == Value(sh, st)[k := Obj(Value(kid, st'))]
  {
    var after := PutKid(sh, k, kid);
    OtherKidsKept(sh, st, k, st');
    assert NodeFits(after.node, after.kids, st');
    forall j | j in after.kids ensures Fits(after.kids[j], st') {
      if j != k { assert after.kids[j] == sh.kids[j]; }
    }
    var value, value' := Value(sh, st), Value(after, st');
    assert value'.Keys == value.Keys && k in value;
    forall j | j in value' ensures value'[j] == value[k := Obj(Value(kid, st'))][j] {
      if j in sh.kids && j != k { assert after.kids[j] == sh.kids[j]; }
    }
  }

  lemma {:induction false} PutShape(sh: Shape, path: seq<string>, sub: Shape)
    requires Distinct(sh) && OnPath(sh, path) && Distinct(sub)
    requires Nodes(sub) !! (Nodes(sh) - Nodes(SubShape(sh, path)))
    ensures Distinct(Put(sh, path, sub)) && Nodes(SubShape(sh, path)) <= Nodes(sh)
    ensures Nodes(Put(sh, path, sub)) == (Nodes(sh) - Nodes(SubShape(sh, path))) + Nodes(sub)
    decreases path
  {
    if path != [] {
      var kid := sh.kids[path[0]];
      KidNodes(sh, path[0]);
      PutShape(kid, path[1..], sub);
      PutKidNodes(sh, path[0], Put(kid, path[1..], sub));
      PutKidDistinct(sh, path[0], Put(kid, path[1..], sub));
    }
  }

  lemma KidValue(sh: Shape, st: Store, k: string)
    requires Fits(sh, st) && k in sh.kids
    ensures SubFields(Value(sh, st), k) == Value(sh.kids[k], st)
  {
  }

  lemma PutRoot(sh: Shape, path: seq<string>, sub: Shape)
    requires OnPath(sh, path) && sub.node == SubShape(sh, path).node
    ensures Put(sh, path, sub).node == sh.node
  {
  }

  lemma SubShapeNodes(sh: Shape, path: seq<string>)
    requires OnPath(sh, path)
    ensures Nodes(SubShape(sh, path)) <= Nodes(sh)
    decreases path
  {
    if path != [] {
      KidNodes(sh, path[0]);
      SubShapeNodes(sh.kids[path[0]], path[1..]);
    }
  }

  /** What did not change outside a subtree did not change outside or inside its branch. */
  lemma SplitFrame(sh: Shape, k: string, rest: seq<string>, st: Store, st': Store)
    requires k in sh.kids && OnPath(sh.kids[k], rest)
    requires Agree(Nodes(sh) - Nodes(SubShape(sh.kids[k], rest)), st, st')
    ensures Agree(Nodes(sh) - Nodes(sh.kids[k]), st, st')
    ensures Agree(Nodes(sh.kids[k]) - Nodes(SubShape(sh.kids[k], rest)), st, st')
  {
    KidNodes(sh, k);
    SubShapeNodes(sh.kids[k], rest);
  }

  /** Replacing the subtree at a path, when only its own dicts have changed, puts its value
      at that path. */
  lemma {:induction false} PutFits(sh: Shape, st: Store, path: seq<string>, sub: Shape, st': Store)
    requires Fits(sh, st) && Distinct(sh) && OnPath(sh, path)
    requires sub.node == SubShape(sh, path).node && Fits(sub, st')
    requires Agree(Nodes(sh) - Nodes(SubShape(sh, path)), st, st')
    ensures Fits(Put(sh, path, sub), st')
    ensures Value(Put(sh, path, sub), st') == WithContainer(Value(sh, st), path, Value(sub, st'))
    decreases path
  {
    if path != [] {
      var k, rest := path[0], path[1..];
      var kid := sh.kids[k];
      SplitFrame(sh, k, rest, st, st');
      PutFits(kid, st, rest, sub, st');
      PutRoot(kid, rest, sub);
      PutKidFits(sh, st, k, Put(kid, rest, sub), st');
      KidValue(sh, st, k);
    }
  }

  // ------------------------------------------------------------------
  // Dicts on the heap
  // ------------------------------------------------------------------

  ghost function Snapshot(nodes: set<Dict>): Store
    reads nodes
  {
    map d | d in nodes :: d.items
  }

  /** The dicts of the shape form a tree right now. */
  ghost predicate IsTree(sh: Shape)
    reads Nodes(sh)
  {
    Fits(sh, Snapshot(Nodes(sh))) && Distinct(sh)
  }

  /** The JSON object the root dict of a tree stands for right now. */
  ghost function Contents(sh: Shape): Fields
    requires IsTree(sh)
    reads Nodes(sh)
  {
    Value(sh, Snapshot(Nodes(sh)))
  }

  /** `kids` are the subtrees of `sh`, except that there may be another one under `key`. */
  ghost predicate Rekeyed(sh: Shape, kids: map<string, Shape>, key: string) {
    && (forall j :: j in kids && j != key ==> j in sh.kids && kids[j] == sh.kids[j])
    && (forall j :: j in sh.kids && j != key ==> j in kids)
  }

  ghost function KidNodesAt(kids: map<string, Shape>, key: string): set<Dict> {
    if key in kids then Nodes(kids[key]) else {}
  }

  lemma RekeyedNodes(sh: Shape, kids: map<string, Shape>, key: string)
    requires Rekeyed(sh, kids, key)
    ensures Nodes(Shape(sh.node, kids)) <= Nodes(sh) + KidNodesAt(kids, key)
  {
    forall d | d in Nodes(Shape(sh.node, kids)) ensures d in Nodes(sh) + KidNodesAt(kids, key) {
      if d != sh.node {
        var j :| j in kids && d in Nodes(kids[j]);
        if j != key { KidNodes(sh, j); }
      }
    }
  }

  lemma RekeyedDistinct(sh: Shape, kids: map<string, Shape>, key: string)
    requires Rekeyed(sh, kids, key) && Distinct(sh)
    requires key in kids ==> Distinct(kids[key]) && Nodes(kids[key]) !! Nodes(sh)
    ensures Distinct(Shape(sh.node, kids))
  {
    forall j | j in sh.kids ensures Nodes(sh.kids[j]) <= Nodes(sh) { KidNodes(sh, j); }
    assert sh.node in Nodes(sh);
  }

  /** The root's entries are as before except perhaps the one under `key`. */
  ghost predicate SameEntriesBut(node: Dict, key: string, st: Store, st': Store)
    requires node in st && node in st'
  {
    && (forall j :: j != key ==> (j in st'[node] <==> j in st[node]))
    && (forall j :: j != key && j in st[node] ==> st'[node][j] == st[node][j])
  }

  lemma KidsKept(sh: Shape, st: Store, st': Store)
    requires Fits(sh, st) && Distinct(sh) && Agree(Nodes(sh) - {sh.node}, st, st')
    ensures forall j :: j in sh.kids ==> Fits(sh.kids[j], st') && Value(sh.kids[j], st') == Value(sh.kids[j], st)
  {
    forall j | j in sh.kids ensures Fits(sh.kids[j], st') && Value(sh.kids[j], st') == Value(sh.kids[j], st) {
      KidNodes(sh, j);
      FitsFrame(sh.kids[j], st, st');
    }
  }

  lemma RekeyedFits(sh: Shape, st: Store, kids: map<string, Shape>, key: string, st': Store)
    requires Fits(sh, st) && Distinct(sh) && Rekeyed(sh, kids, key)
    requires Agree(Nodes(sh) - {sh.node}, st, st')
    requires NodeFits(sh.node, kids, st') && (key in kids ==> Fits(kids[key], st'))
    ensures Fits(Shape(sh.node, kids), st')
  {
    KidsKept(sh, st, st');
    forall j | j in kids ensures Fits(kids[j], st') {
      if j != key { assert kids[j] == sh.kids[j]; }
    }
  }

  lemma RekeyedOther(sh: Shape, st: Store, kids: map<string, Shape>, key: string, st': Store, j: string)
    requires Fits(sh, st) && Distinct(sh) && Rekeyed(sh, kids, key)
    requires Agree(Nodes(sh) - {sh.node}, st, st') && Fits(Shape(sh.node, kids), st')
    requires SameEntriesBut(sh.node, key, st, st') && j != key
    ensures j in Value(Shape(sh.node, kids), st') <==> j in Value(sh, st)
    ensures j in Value(sh, st) ==> Value(Shape(sh.node, kids), st')[j] == Value(sh, st)[j]
  {
    KidsKept(sh, st, st');
    if j in sh.kids { assert kids[j] == sh.kids[j]; }
  }

  lemma RekeyedAt(node: Dict, kids: map<string, Shape>, key: string, st': Store)
    requires Fits(Shape(node, kids), st')
    ensures key in Value(Shape(node, kids), st') <==> key in st'[node]
    ensures key in st'[node] ==>
              Value(Shape(node, kids), st')[key] ==
              if key in kids then Obj(Value(kids[key], st')) else st'[node][key].value
  {
  }

  lemma DifferAtOneKey(m: Fields, m': Fields, key: string)
    requires forall j :: j != key ==> (j in m' <==> j in m) && (j in m ==> m'[j] == m[j])
    ensures m' == if key in m' then m[key := m'[key]] else m - {key}
  {
  }

  /** Linking or unlinking one entry of the root dict. */
  lemma RekeyedValue(sh: Shape, st: Store, kids: map<string, Shape>, key: string, st': Store)
    requires Fits(sh, st) && Distinct(sh) && Rekeyed(sh, kids, key)
    requires Agree(Nodes(sh) - {sh.node}, st, st') && Fits(Shape(sh.node, kids), st')
    requires SameEntriesBut(sh.node, key, st, st')
    ensures Value(Shape(sh.node, kids), st') ==
            if key !in st'[sh.node] then Value(sh, st) - {key}
            else if key in kids then Value(sh, st)[key := Obj(Value(kids[key], st'))]
            else Value(sh, st)[key := st'[sh.node][key].value]
  {
    var value, value' := Value(sh, st), Value(Shape(sh.node, kids), st');
    forall j | j != key ensures (j in value' <==> j in value) && (j in value ==> value'[j] == value[j]) {
      RekeyedOther(sh, st, kids, key, st', j);
    }
    RekeyedAt(sh.node, kids, key, st');
    DifferAtOneKey(value, value', key);
  }

  // ------------------------------------------------------------------
  // Copying in and reading out
  // ------------------------------------------------------------------

  ghost predicate IsLeaf(sh: Shape) {
    sh.kids == map[]
  }

  lemma LeafTree(sh: Shape, st: Store)
    requires IsLeaf(sh) && sh.node in st
    requires forall k :: k in st[sh.node] ==> st[sh.node][k].Plain? && !st[sh.node][k].value.Obj?
    ensures Fits(sh, st) && Distinct(sh) && Nodes(sh) == {sh.node}
  {
  }

  /** One step of an update at the root: the entry under `key` now refers to the tree `kid`. */
  lemma LinkKid(sh: Shape, st: Store, key: string, kid: Shape, st': Store)
    requires Fits(sh, st) && Distinct(sh) && Fits(kid, st') && Distinct(kid) && Nodes(kid) !! Nodes(sh)
    requires Agree(Nodes(sh) - {sh.node}, st, st')
    requires sh.node in st' && st'[sh.node] == st[sh.node][key := Ref(kid.node)]
    ensures var after := Shape(sh.node, sh.kids[key := kid]);
            && Fits(after, st') && Distinct(after) && Nodes(after) <= Nodes(sh) + Nodes(kid)
            && Value(after, st') == Value(sh, st)[key := Obj(Value(kid, st'))]
  {
    var kids := sh.kids[key := kid];
    assert sh.node in Nodes(sh);
    assert NodeFits(sh.node, kids, st');
    RekeyedNodes(sh, kids, key);
    RekeyedDistinct(sh, kids, key);
    RekeyedFits(sh, st, kids, key, st');
    RekeyedValue(sh, st, kids, key, st');
  }

  /** The entry under `key` is now a plain value, or gone. */
  lemma UnlinkKid(sh: Shape, st: Store, key: string, value: Option<Json>, st': Store)
    requires Fits(sh, st) && Distinct(sh) && (value.Some? ==> !value.value.Obj?)
    requires Agree(Nodes(sh) - {sh.node}, st, st')
    requires sh.node in st'
    requires st'[sh.node] == if value.Some? then st[sh.node][key := Plain(value.value)] else st[sh.node] - {key}
    ensures var after := Shape(sh.node, sh.kids - {key});
            && Fits(after, st') && Distinct(after) && Nodes(after) <= Nodes(sh)
            && Value(after, st') == if value.Some? then Value(sh, st)[key := value.value] else Value(sh, st) - {key}
  {
    var kids := sh.kids - {key};
    assert NodeFits(sh.node, kids, st');
    RekeyedNodes(sh, kids, key);
    RekeyedDistinct(sh, kids, key);
    RekeyedFits(sh, st, kids, key, st');
    RekeyedValue(sh, st, kids, key, st');
  }

  lemma LinkKidNow(sh: Shape, st: Store, key: string, kid: Shape)
    requires Fits(sh, st) && Distinct(sh) && IsTree(kid) && Nodes(kid) !! Nodes(sh)
    requires Agree(Nodes(sh) - {sh.node}, st, Snapshot(Nodes(sh) + Nodes(kid)))
    requires sh.node.items == st[sh.node][key := Ref(kid.node)]
    ensures var after := Shape(sh.node, sh.kids[key := kid]);
            && IsTree(after) && Nodes(after) <= Nodes(sh) + Nodes(kid)
            && Contents(after) == Value(sh, st)[key := Obj(Contents(kid))]
  {
    var st' := Snapshot(Nodes(sh) + Nodes(kid));
    var after := Shape(sh.node, sh.kids[key := kid]);
    FitsFrame(kid, Snapshot(Nodes(kid)), st');
    assert sh.node in Nodes(sh);
    LinkKid(sh, st, key, kid, st');
    FitsFrame(after, st', Snapshot(Nodes(after)));
  }

  lemma UnlinkKidNow(sh: Shape, st: Store, key: string, value: Option<Json>)
    requires Fits(sh, st) && Distinct(sh) && (value.Some? ==> !value.value.Obj?)
    requires Agree(Nodes(sh) - {sh.node}, st, Snapshot(Nodes(sh)))
    requires sh.node.items == if value.Some? then st[sh.node][key := Plain(value.value)] else st[sh.node] - {key}
    ensures var after := Shape(sh.node, sh.kids - {key});
            && IsTree(after) && Nodes(after) <= Nodes(sh)
            && Contents(after) == if value.Some? then Value(sh, st)[key := value.value] else Value(sh, st) - {key}
  {
    var st' := Snapshot(Nodes(sh));
    var after := Shape(sh.node, sh.kids - {key});
    assert sh.node in Nodes(sh);
    UnlinkKid(sh, st, key, value, st');
    FitsFrame(after, st', Snapshot(Nodes(after)));
  }

  /** d[key] = a dict. */
  method SetDict(d: Dict, key: string, kid: Dict, ghost sh: Shape, ghost kidShape: Shape) returns (ghost after: Shape)
    requires sh.node == d && IsTree(sh) && kidShape.node == kid && IsTree(kidShape)
    requires Nodes(kidShape) !! Nodes(sh)
    modifies d
    ensures after.node == d && IsTree(after) && Nodes(after) <= Nodes(sh) + Nodes(kidShape)
    ensures after.kids == sh.kids[key := kidShape]
    ensures Contents(after) == old(Contents(sh))[key := old(Obj(Contents(kidShape)))]
  {
    ghost var before := Snapshot(Nodes(sh));
    ghost var kidBefore := Snapshot(Nodes(kidShape));
    assert d in Nodes(sh);
    d.items := d.items[key := Ref(kid)];
    assert Snapshot(Nodes(kidShape)) == kidBefore;
    LinkKidNow(sh, before, key, kidShape);
    after := Shape(d, sh.kids[key := kidShape]);
  }

  /** d[key] = a value that is not a dict, or, for None, del d[key]. */
  method SetValue(d: Dict, key: string, value: Option<Json>, ghost sh: Shape) returns (ghost after: Shape)
    requires sh.node == d && IsTree(sh) && (value.Some? ==> !value.value.Obj?)
    modifies d
    ensures after.node == d && IsTree(after) && Nodes(after) <= Nodes(sh)
    ensures Contents(after) == if value.Some? then old(Contents(sh))[key := value.value] else old(Contents(sh)) - {key}
  {
    ghost var before := Snapshot(Nodes(sh));
    assert d in Nodes(sh);
    if value.Some? {
      d.items := d.items[key := Plain(value.value)];
    } else {
      d.items := d.items - {key};
    }
    UnlinkKidNow(sh, before, key, value);
    after := Shape(d, sh.kids - {key});
  }

  /** {} */
  method NewDict() returns (d: Dict, ghost sh: Shape)
    ensures fresh(d) && sh == Shape(d, map[]) && Nodes(sh) == {d} && IsTree(sh) && Contents(sh) == map[]
  {
    d := new Dict(map[]);
    sh := Shape(d, map[]);
    LeafTree(sh, Snapshot({d}));
  }

  lemma {:induction false} NodesAllocated(sh: Shape)
    ensures forall d :: d in Nodes(sh) ==> allocated(d)
  {
    forall k | k in sh.kids ensures forall d :: d in Nodes(sh.kids[k]) ==> allocated(d) {
      NodesAllocated(sh.kids[k]);
    }
  }

  /** d[key] = copy.deepcopy(value) */
  method CopyEntry(d: Dict, key: string, value: Json, ghost sh: Shape) returns (ghost after: Shape)
    requires sh.node == d && IsTree(sh)
    modifies d
    ensures after.node == d && IsTree(after)
    ensures forall o :: o in Nodes(after) ==> o in Nodes(sh) || fresh(o)
    ensures Contents(after) == old(Contents(sh))[key := value]
    decreases value, 1
  {
    if value.Obj? {
      assert value == Obj(value.fields);
      NodesAllocated(sh);
      var kid, kidShape := CopyIn(value.fields);
      after := SetDict(d, key, kid, sh, kidShape);
    } else {
      after := SetValue(d, key, Some(value), sh);
    }
  }

  /** The fields at some keys. */
  ghost function Restricted(fields: Fields, keys: set<string>): Fields {
    map k | k in fields && k in keys :: fields[k]
  }

  lemma RestrictedGrows(fields: Fields, pending: set<string>, key: string)
    requires key in fields && key in pending
    ensures Restricted(fields, fields.Keys - pending)[key := fields[key]]
         == Restricted(fields, fields.Keys - (pending - {key}))
  {
  }

  lemma RestrictedWhole(fields: Fields)
    ensures Restricted(fields, fields.Keys - {}) == fields && Restricted(fields, fields.Keys - fields.Keys) == map[]
  {
  }

  /** copy.deepcopy of a JSON object into fresh dicts. */
  method CopyIn(fields: Fields) returns (root: Dict, ghost sh: Shape)
    ensures sh.node == root && IsTree(sh) && Contents(sh) == fields && forall o :: o in Nodes(sh) ==> fresh(o)
    decreases Obj(fields), 0
  {
    root, sh := NewDict();
    var pending := fields.Keys;
    RestrictedWhole(fields);
    while pending != {}
      invariant pending <= fields.Keys
      invariant sh.node == root && fresh(root) && IsTree(sh) && forall o :: o in Nodes(sh) ==> fresh(o)
      invariant Contents(sh) == Restricted(fields, fields.Keys - pending)
      decreases pending
    {
      var key :| key in pending;
      sh := CopyEntry(root, key, fields[key], sh);
      RestrictedGrows(fields, pending, key);
      pending := pending - {key};
    }
  }

  /** The JSON object a dict stands for, read out of the heap. */
  method ReadOut(root: Dict, ghost sh: Shape) returns (fields: Fields)
    requires sh.node == root && IsTree(sh)
    ensures fields == old(Contents(sh))
    decreases sh
  {
    ghost var contents := Contents(sh);
    NodesAllocated(sh);
    ContentsKeys(sh);
    RestrictedWhole(contents);
    var items := root.items;
    var pending := items.Keys;
    fields := map[];
    while pending != {}
      invariant pending <= items.Keys == contents.Keys && root.items == items && IsTree(sh) && Contents(sh) == contents
      invariant fields == Restricted(contents, contents.Keys - pending)
      decreases pending
    {
      var key :| key in pending;
      RestrictedGrows(contents, pending, key);
      ContentsEntry(sh, key);
      match items[key] {
        case Plain(value) =>
          fields := fields[key := value];
        case Ref(kid) =>
          var inner := ReadOut(kid, sh.kids[key]);
          fields := fields[key := Obj(inner)];
      }
      pending := pending - {key};
    }
  }

  lemma ContentsKeys(sh: Shape)
    requires IsTree(sh)
    ensures sh.node in Nodes(sh) && Contents(sh).Keys == sh.node.items.Keys
  {
    assert sh.node in Nodes(sh);
  }

  lemma ContentsEntry(sh: Shape, key: string)
    requires IsTree(sh) && key in sh.node.items
    ensures key in Contents(sh)
    ensures sh.node.items[key].Plain? ==> Contents(sh)[key] == sh.node.items[key].value
    ensures sh.node.items[key].Ref? ==>
              && key in sh.kids && sh.kids[key].node == sh.node.items[key].dict && IsTree(sh.kids[key])
              && Contents(sh)[key] == Obj(Contents(sh.kids[key]))
  {
    assert sh.node in Nodes(sh);
    if key in sh.kids { KidTree(sh, key); }
  }

  lemma KidTree(sh: Shape, k: string)
    requires IsTree(sh) && k in sh.kids
    ensures Nodes(sh.kids[k]) <= Nodes(sh) && IsTree(sh.kids[k])
    ensures sh.node.items[k] == Ref(sh.kids[k].node) && Contents(sh)[k] == Obj(Contents(sh.kids[k]))
  {
    KidNodes(sh, k);
    FitsFrame(sh.kids[k], Snapshot(Nodes(sh)), Snapshot(Nodes(sh.kids[k])));
  }

  // ------------------------------------------------------------------
  // Updates through a cursor
  // ------------------------------------------------------------------

  lemma SubTree(sh: Shape, path: seq<string>)
    requires IsTree(sh) && OnPath(sh, path)
    ensures Nodes(SubShape(sh, path)) <= Nodes(sh) && IsTree(SubShape(sh, path))
    ensures Contents(SubShape(sh, path)) == Container(Contents(sh), path)
  {
    SubShapeFits(sh, Snapshot(Nodes(sh)), path);
    FitsFrame(SubShape(sh, path), Snapshot(Nodes(sh)), Snapshot(Nodes(SubShape(sh, path))));
  }

  /** A change inside the subtree at a path, seen from the root. */
  lemma LiftEdit(sh: Shape, st: Store, path: seq<string>, sub: Shape)
    requires Fits(sh, st) && Distinct(sh) && OnPath(sh, path)
    requires sub.node == SubShape(sh, path).node && IsTree(sub)
    requires Nodes(sub) !! (Nodes(sh) - Nodes(SubShape(sh, path)))
    requires Agree(Nodes(sh) - Nodes(SubShape(sh, path)), st, Snapshot(Nodes(sh) + Nodes(sub)))
    ensures var after := Put(sh, path, sub);
            && after.node == sh.node && IsTree(after) && Nodes(after) <= Nodes(sh) + Nodes(sub)
            && OnPath(after, path) && SubShape(after, path) == sub
            && Contents(after) == WithContainer(Value(sh, st), path, Contents(sub))
  {
    var after := Put(sh, path, sub);
    var now := Snapshot(Nodes(sh) + Nodes(sub));
    FitsFrame(sub, Snapshot(Nodes(sub)), now);
    PutShape(sh, path, sub);
    PutRoot(sh, path, sub);
    PutOnPath(sh, path, sub);
    PutFits(sh, st, path, sub, now);
    FitsFrame(after, now, Snapshot(Nodes(after)));
  }

  lemma StillAgrees(nodes: set<Dict>, all: set<Dict>, st: Store)
    requires nodes <= all && forall d :: d in nodes ==> d in st && st[d] == d.items
    ensures Agree(nodes, st, Snapshot(all))
  {
  }

  /** The cursor is the dict at a path of the tree. */
  ghost predicate Points(sh: Shape, path: seq<string>, cursor: Dict)
    reads Nodes(sh)
  {
    IsTree(sh) && OnPath(sh, path) && SubShape(sh, path).node == cursor
  }

  /** cursor[key] = a dict, for the dict at a path. */
  method PutDict(cursor: Dict, key: string, next: Dict, ghost path: seq<string>, ghost sh: Shape, ghost nextShape: Shape)
      returns (ghost after: Shape, ghost sub: Shape)
    requires Points(sh, path, cursor)
    requires nextShape == Shape(next, map[]) && Nodes(nextShape) == {next} && IsTree(nextShape) && next !in Nodes(sh)
    modifies cursor
    ensures IsTree(after) && OnPath(sh, path) && after == Put(sh, path, sub)
    ensures sub.node == cursor && key in sub.kids && sub.kids[key].node == next
    ensures Nodes(after) <= Nodes(sh) + {next}
    ensures Contents(after) == WithContainer(old(Contents(sh)), path,
                                             Container(old(Contents(sh)), path)[key := old(Obj(Contents(nextShape)))])
  {
    SubTree(sh, path);
    CursorInTree(sh, path);
    ghost var st := Snapshot(Nodes(sh));
    sub := SetDict(cursor, key, next, SubShape(sh, path), nextShape);
    assert cursor in Nodes(SubShape(sh, path));
    StillAgrees(Nodes(sh) - Nodes(SubShape(sh, path)), Nodes(sh) + Nodes(sub), st);
    LiftEdit(sh, st, path, sub);
    after := Put(sh, path, sub);
  }

  /** cursor[key] = {} for the dict at a path. */
  method PutNewDict(cursor: Dict, key: string, ghost path: seq<string>, ghost sh: Shape)
      returns (next: Dict, ghost after: Shape)
    requires Points(sh, path, cursor)
    modifies cursor
    ensures after.node == sh.node && Points(after, path, cursor)
    ensures key in SubShape(after, path).kids && SubShape(after, path).kids[key].node == next
    ensures Contents(after) == WithContainer(old(Contents(sh)), path, Container(old(Contents(sh)), path)[key := Obj(map[])])
    ensures forall o :: o in Nodes(after) ==> o in Nodes(sh) || fresh(o)
  {
    NodesAllocated(sh);
    ghost var nextShape, sub;
    next, nextShape := NewDict();
    after, sub := PutDict(cursor, key, next, path, sh, nextShape);
    PutOnPath(sh, path, sub);
    PutRoot(sh, path, sub);
  }

  /** cursor[key] = copy.deepcopy(value) for the dict at a path. */
  method PutCopy(cursor: Dict, key: string, value: Json, ghost path: seq<string>, ghost sh: Shape)
      returns (ghost after: Shape)
    requires Points(sh, path, cursor)
    modifies cursor
    ensures after.node == sh.node && IsTree(after)
    ensures Contents(after) == WithContainer(old(Contents(sh)), path, Container(old(Contents(sh)), path)[key := value])
    ensures forall o :: o in Nodes(after) ==> o in Nodes(sh) || fresh(o)
  {
    NodesAllocated(sh);
    SubTree(sh, path);
    ghost var st := Snapshot(Nodes(sh));
    ghost var sub := CopyEntry(cursor, key, value, SubShape(sh, path));
    assert cursor in Nodes(SubShape(sh, path));
    StillAgrees(Nodes(sh) - Nodes(SubShape(sh, path)), Nodes(sh) + Nodes(sub), st);
    LiftEdit(sh, st, path, sub);
    after := Put(sh, path, sub);
  }

  /** del cursor[key] for the dict at a path. */
  method Remove(cursor: Dict, key: string, ghost path: seq<string>, ghost sh: Shape)
      returns (ghost after: Shape, ghost sub: Shape)
    requires Points(sh, path, cursor)
    modifies cursor
    ensures after.node == sh.node && IsTree(after) && Nodes(after) <= Nodes(sh)
    ensures Points(after, path, cursor) && OnPath(sh, path) && after == Put(sh, path, sub)
    ensures Contents(after) == WithContainer(old(Contents(sh)), path, Container(old(Contents(sh)), path) - {key})
  {
    SubTree(sh, path);
    ghost var st := Snapshot(Nodes(sh));
    sub := SetValue(cursor, key, None, SubShape(sh, path));
    assert cursor in Nodes(SubShape(sh, path));
    StillAgrees(Nodes(sh) - Nodes(SubShape(sh, path)), Nodes(sh) + Nodes(sub), st);
    LiftEdit(sh, st, path, sub);
    after := Put(sh, path, sub);
  }

  // ------------------------------------------------------------------
  // _ensure_scope_container and _apply_preview_to_domain_data
  // ------------------------------------------------------------------

  /** The container with a dict under the key, as it was if there already is one. */
  function WithDict(container: Fields, key: string): Fields {
    if key in container && container[key].Obj? then container else container[key := Obj(map[])]
  }

  lemma OnPathAppend(sh: Shape, path: seq<string>, key: string)
    requires OnPath(sh, path) && key in SubShape(sh, path).kids
    ensures OnPath(sh, path + [key]) && SubShape(sh, path + [key]) == SubShape(sh, path).kids[key]
    decreases path
  {
    if path != [] {
      assert (path + [key])[1..] == path[1..] + [key];
      OnPathAppend(sh.kids[path[0]], path[1..], key);
    } else {
      assert (path + [key])[1..] == [];
    }
  }

  /** One step of the walk: the dict under the key, made if there is none. */
  method StepInto(cursor: Dict, key: string, ghost path: seq<string>, ghost sh: Shape)
      returns (next: Dict, ghost after: Shape)
    requires Points(sh, path, cursor)
    modifies cursor
    ensures after.node == sh.node && IsTree(after)
    ensures Points(after, path + [key], next) && Points(after, path, cursor)
    ensures Contents(after) == WithContainer(old(Contents(sh)), path, WithDict(Container(old(Contents(sh)), path), key))
    ensures forall o :: o in Nodes(after) ==> o in Nodes(sh) || fresh(o)
  {
    SubTree(sh, path);
    ghost var sub := SubShape(sh, path);
    ContentsKeys(sub);
    if key in cursor.items && cursor.items[key].Ref? {
      next := cursor.items[key].dict;
      after := sh;
      ContentsEntry(sub, key);
      SameContainer(sh, path);
    } else {
      if key in cursor.items { ContentsEntry(sub, key); PlainEntry(sub, key); }
      next, after := PutNewDict(cursor, key, path, sh);
    }
    OnPathAppend(after, path, key);
  }

  lemma PlainEntry(sh: Shape, key: string)
    requires IsTree(sh) && key in sh.node.items && sh.node.items[key].Plain?
    ensures key in Contents(sh) && !Contents(sh)[key].Obj?
  {
    assert sh.node in Nodes(sh);
  }

  lemma SameContainer(sh: Shape, path: seq<string>)
    requires IsTree(sh) && OnPath(sh, path)
    ensures WithContainer(Contents(sh), path, Container(Contents(sh), path)) == Contents(sh)
  {
    ReplacedBySelf(sh, Snapshot(Nodes(sh)), path);
  }

  lemma {:induction false} ReplacedBySelf(sh: Shape, st: Store, path: seq<string>)
    requires Fits(sh, st) && OnPath(sh, path)
    ensures WithContainer(Value(sh, st), path, Container(Value(sh, st), path)) == Value(sh, st)
    decreases path
  {
    if path != [] {
      KidValue(sh, st, path[0]);
      ReplacedBySelf(sh.kids[path[0]], st, path[1..]);
    }
  }

  lemma EnsuredStep(fields: Fields, path: seq<string>, key: string)
    ensures WithContainer(Ensured(fields, path), path, WithDict(Container(Ensured(fields, path), path), key))
         == Ensured(fields, path + [key])
  {
    var container := Container(fields, path);
    ContainerLaws(fields, path, container, WithDict(container, key));
    ContainerAppend(fields, path, key, SubFields(container, key));
    assert WithDict(container, key) == container[key := Obj(SubFields(container, key))];
  }

  /** _ensure_scope_container: the cursor returned is the dict at the path. */
  method EnsureScopeContainer(root: Dict, path: seq<string>, ghost sh: Shape) returns (cursor: Dict, ghost after: Shape)
    requires sh.node == root && IsTree(sh)
    modifies Nodes(sh)
    ensures after.node == root && Points(after, path, cursor)
    ensures Contents(after) == Ensured(old(Contents(sh)), path)
    ensures forall o :: o in Nodes(after) ==> o in Nodes(sh) || fresh(o)
  {
    ghost var contents := Contents(sh);
    cursor, after := root, sh;
    var i := 0;
    assert path[..0] == [];
    while i < |path|
      invariant 0 <= i <= |path|
      invariant after.node == root && Points(after, path[..i], cursor)
      invariant Contents(after) == Ensured(contents, path[..i])
      invariant forall o :: o in Nodes(after) ==> o in Nodes(sh) || fresh(o)
    {
      ghost var walked := path[..i];
      assert path[..i + 1] == walked + [path[i]];
      CursorInTree(after, walked);
      EnsuredStep(contents, walked, path[i]);
      cursor, after := StepInto(cursor, path[i], walked, after);
      i := i + 1;
    }
    assert path[..i] == path;
  }

  lemma CursorInTree(sh: Shape, path: seq<string>)
    requires OnPath(sh, path)
    ensures SubShape(sh, path).node in Nodes(sh)
  {
    SubShapeNodes(sh, path);
    assert SubShape(sh, path).node in Nodes(SubShape(sh, path));
  }

  lemma CorrectedBySteps(fields: Fields, scope: seq<string>, id: string, entity: Json)
    ensures var ensured := Ensured(fields, scope);
            var entered := WithContainer(ensured, scope, WithDict(Container(ensured, scope), "entities"));
            (WithContainer(entered, scope + ["entities"], Container(entered, scope + ["entities"])[id := entity])
             == Corrected(fields, scope, id, entity))
  {
    var container := Container(fields, scope);
    var entities := SubFields(container, "entities");
    EnsuredStep(fields, scope, "entities");
    var path := scope + ["entities"];
    ContainerLaws(fields, path, Container(fields, path), entities[id := entity]);
    ContainerAppend(fields, scope, "entities", entities[id := entity]);
  }

  /** The correction branch: walk to the container, take or make its `entities`, and set
      the entity there. */
  method CorrectEntity(root: Dict, scope: seq<string>, id: string, entity: Json, ghost sh: Shape)
      returns (ghost after: Shape)
    requires sh.node == root && IsTree(sh)
    modifies Nodes(sh)
    ensures after.node == root && IsTree(after)
    ensures Contents(after) == Corrected(old(Contents(sh)), scope, id, entity)
  {
    ghost var contents := Contents(sh);
    var container, sh1 := EnsureScopeContainer(root, scope, sh);
    CursorInTree(sh1, scope);
    var entities, sh2 := StepInto(container, "entities", scope, sh1);
    CursorInTree(sh2, scope + ["entities"]);
    after := PutCopy(entities, id, entity, scope + ["entities"], sh2);
    CorrectedBySteps(contents, scope, id, entity);
  }

  lemma DeletedBySteps(fields: Fields, scope: seq<string>, id: string)
    requires Entity(fields, scope, id).Some?
    ensures var ensured := Ensured(fields, scope);
            var container := Container(ensured, scope);
            var entities := SubFields(container, "entities");
            var removed := WithContainer(ensured, scope + ["entities"], entities - {id});
            && container == Container(fields, scope)
            && entities == Container(ensured, scope + ["entities"])
            && (if entities - {id} == map[] then WithContainer(removed, scope, Container(removed, scope) - {"entities"})
                else removed) == Deleted(fields, scope, id)
  {
    var container := Container(fields, scope);
    var ensured := Ensured(fields, scope);
    ContainerLaws(fields, scope, container, WithoutEntity(container, id));
    var left := SubFields(container, "entities") - {id};
    ContainerAppend(ensured, scope, "entities", left);
    ContainerLaws(ensured, scope, container["entities" := Obj(left)], container - {"entities"});
    ContainerLaws(fields, scope, container, container["entities" := Obj(left)]);
    ContainerLaws(fields, scope, container, container - {"entities"});
    assert container["entities" := Obj(left)] - {"entities"} == container - {"entities"};
  }

  lemma EntitiesDict(sh: Shape, scope: seq<string>, container: Dict)
    requires Points(sh, scope, container)
    ensures container in Nodes(sh)
    ensures "entities" in container.items && container.items["entities"].Ref? ==>
              Points(sh, scope + ["entities"], container.items["entities"].dict)
              && container.items["entities"].dict in Nodes(sh)
    ensures !("entities" in container.items && container.items["entities"].Ref?) ==>
              SubFields(Container(Contents(sh), scope), "entities") == map[]
  {
    SubTree(sh, scope);
    CursorInTree(sh, scope);
    var sub := SubShape(sh, scope);
    ContentsKeys(sub);
    if "entities" in container.items {
      ContentsEntry(sub, "entities");
      if container.items["entities"].Ref? {
        OnPathAppend(sh, scope, "entities");
        CursorInTree(sh, scope + ["entities"]);
      } else {
        PlainEntry(sub, "entities");
      }
    }
  }

  lemma HoldsDict(sh: Shape, key: string)
    requires IsTree(sh)
    ensures key in sh.node.items && sh.node.items[key].Ref? <==> key in Contents(sh) && Contents(sh)[key].Obj?
  {
    ContentsKeys(sh);
    if key in sh.node.items {
      ContentsEntry(sh, key);
      if sh.node.items[key].Plain? { PlainEntry(sh, key); }
    }
  }

  /** The deletion branch. It makes the containers on its path before it looks for the
      entity, and reports whether there was one to delete. */
  method DeleteEntity(root: Dict, scope: seq<string>, id: string, ghost sh: Shape) returns (found: bool, ghost after: Shape)
    requires sh.node == root && IsTree(sh)
    modifies Nodes(sh)
    ensures after.node == root && IsTree(after)
    ensures found == Entity(old(Contents(sh)), scope, id).Some?
    ensures Contents(after) == if found then Deleted(old(Contents(sh)), scope, id) else Ensured(old(Contents(sh)), scope)
  {
    ghost var contents := Contents(sh);
    var container;
    container, after := EnsureScopeContainer(root, scope, sh);
    EntitiesDict(after, scope, container);
    SameEntityEnsured(contents, scope, id);
    found := false;
    if "entities" in container.items && container.items["entities"].Ref? {
      var entities := container.items["entities"].dict;
      SubTree(after, scope + ["entities"]);
      ContainerAppend(Contents(after), scope, "entities", map[]);
      HoldsDict(SubShape(after, scope + ["entities"]), id);
      if id in entities.items && entities.items[id].Ref? {
        found := true;
        DeletedBySteps(contents, scope, id);
        after := RemoveEntity(container, entities, id, scope, after);
      }
    }
  }

  lemma SameEntityEnsured(fields: Fields, scope: seq<string>, id: string)
    ensures Entity(Ensured(fields, scope), scope, id) == Entity(fields, scope, id)
  {
    ContainerLaws(fields, scope, Container(fields, scope), map[]);
  }

  /** A change below a dict leaves the path to that dict in place. */
  lemma PutBelow(sh: Shape, path: seq<string>, key: string, sub: Shape)
    requires OnPath(sh, path) && OnPath(sh, path + [key])
    ensures OnPath(Put(sh, path + [key], sub), path)
    ensures SubShape(Put(sh, path + [key], sub), path).node == SubShape(sh, path).node
    decreases path
  {
    if path != [] {
      assert (path + [key])[1..] == path[1..] + [key];
      PutBelow(sh.kids[path[0]], path[1..], key, sub);
    }
  }

  /** del entities[id], and the `entities` key with it when that leaves it empty. */
  method RemoveEntity(container: Dict, entities: Dict, id: string, ghost scope: seq<string>, ghost sh: Shape)
      returns (ghost after: Shape)
    requires Points(sh, scope, container) && Points(sh, scope + ["entities"], entities)
    modifies container, entities
    ensures after.node == sh.node && IsTree(after)
    ensures var before := old(Contents(sh));
            var left := Container(before, scope + ["entities"]) - {id};
            var removed := WithContainer(before, scope + ["entities"], left);
            Contents(after) == if left == map[] then WithContainer(removed, scope, Container(removed, scope) - {"entities"})
                               else removed
  {
    ghost var path := scope + ["entities"];
    ghost var before := Contents(sh);
    ghost var sh1, sub := Remove(entities, id, path, sh);
    PutBelow(sh, scope, "entities", sub);
    SubTree(sh1, path);
    ContentsKeys(SubShape(sh1, path));
    ContainerLaws(before, path, Container(before, path) - {id}, map[]);
    after := sh1;
    if entities.items == map[] {
      after, sub := Remove(container, "entities", scope, sh1);
    }
  }

  /** _apply_preview_to_domain_data: edits a deep copy in place, or merges. */
  method ApplyPreview(current: Fields, p: Preview) returns (next: Fields)
    ensures next == Apply(current, p)
    ensures Edited(current, p, next)
  {
    ApplyMeaning(current, p);
    var root, sh := CopyIn(current);
    if p.mode == "correct_entity" && p.scope != [] && p.id != "" {
      var entity := PatchEntity(p.candidate, p.scope, p.id);
      if entity.Some? {
        sh := CorrectEntity(root, p.scope, p.id, entity.value, sh);
        next := ReadOut(root, sh);
        return;
      }
    }
    if p.mode == "delete_entity" && p.scope != [] && p.id != "" {
      var found;
      found, sh := DeleteEntity(root, p.scope, p.id, sh);
      if found {
        next := ReadOut(root, sh);
        return;
      }
    }
    next := ReadOut(root, sh);
    if p.mode in {"create_entity", "extend_entity", "correct_entity", "delete_entity"} {
      var merged := DeepMerge(Obj(next), Obj(p.candidate));
      next := merged.fields;
    }
  }
}

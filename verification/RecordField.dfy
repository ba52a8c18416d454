// Editing an entry's record in place, by walking from map to map: entry/record_field.go.
// Maps are objects that others may point to; a record is a tree of them.
module RecordField {
  import opened Wrappers
  import opened Records

  /** A Go map. */
  class Dict {
    var items: map<string, Value>

    constructor ()
      ensures items == map[]
    {
      items := map[];
    }
  }

  datatype Value = Simple(scalar: Scalar) | Map(dict: Dict)

  /** The tree that is laid out in maps, with the map of each node. */
  datatype Tree = Leaf(scalar: Scalar) | Node(dict: Dict, kids: map<string, Tree>)

  function Root(t: Tree): Value {
    if t.Leaf? then Simple(t.scalar) else Map(t.dict)
  }

  ghost function Dicts(t: Tree): set<Dict> {
    if t.Leaf? then {} else {t.dict} + set k, d | k in t.kids && d in Dicts(t.kids[k]) :: d
  }

  /** The record it stands for. */
  function Erase(t: Tree): Record {
    if t.Leaf? then Plain(t.scalar) else Object(map k | k in t.kids :: Erase(t.kids[k]))
  }

  /** The maps hold what the tree says. */
  ghost predicate Shaped(t: Tree)
    reads Dicts(t)
  {
    t.Node? ==>
      && t.dict.items == (map k | k in t.kids :: Root(t.kids[k]))
      && forall k :: k in t.kids ==> Shaped(t.kids[k])
  }

  /** No map occurs twice. */
  ghost predicate Separate(t: Tree) {
    t.Node? ==>
      && (forall k :: k in t.kids ==> Separate(t.kids[k]) && t.dict !in Dicts(t.kids[k]))
      && (forall k, l :: k in t.kids && l in t.kids && k != l ==> Dicts(t.kids[k]) !! Dicts(t.kids[l]))
  }

  // -------------------------------------------------------- paths into trees

  function At(t: Tree, p: Path): Option<Tree> {
    if p == [] then Some(t)
    else if t.Node? && p[0] in t.kids then At(t.kids[p[0]], p[1..])
    else None
  }

  function Put(t: Tree, p: Path, sub: Tree): Tree
    requires At(t, p).Some?
  {
    if p == [] then sub else t.(kids := t.kids[p[0] := Put(t.kids[p[0]], p[1..], sub)])
  }

  lemma {:induction false} EraseAt(t: Tree, p: Path)
    ensures GetAt(Erase(t), p) == match At(t, p) case None => None case Some(sub) => Some(Erase(sub))
    decreases p
  {
    if p != [] && t.Node? && p[0] in t.kids {
      EraseAt(t.kids[p[0]], p[1..]);
    }
  }

  lemma {:induction false} ErasePut(t: Tree, p: Path, sub: Tree)
    requires At(t, p).Some?
    ensures Erase(Put(t, p, sub)) == PutAt(Erase(t), p, Erase(sub))
    decreases p
  {
    if p != [] {
      ErasePut(t.kids[p[0]], p[1..], sub);
      assert Fields(Erase(Put(t, p, sub))) == Fields(PutAt(Erase(t), p, Erase(sub)));
    }
  }

  lemma {:induction false} AtPut(t: Tree, p: Path, sub: Tree, q: Path)
    requires At(t, p).Some?
    ensures At(Put(t, p, sub), p + q) == At(sub, q)
    decreases p
  {
    if p == [] {
      assert p + q == q;
    } else {
      assert (p + q)[0] == p[0] && (p + q)[1..] == p[1..] + q;
      AtPut(t.kids[p[0]], p[1..], sub, q);
    }
  }

  lemma {:induction false} AtAppend(t: Tree, p: Path, q: Path)
    requires At(t, p).Some?
    ensures At(t, p + q) == At(At(t, p).value, q)
    decreases p
  {
    if p == [] {
      assert p + q == q;
    } else {
      assert (p + q)[0] == p[0] && (p + q)[1..] == p[1..] + q;
      AtAppend(t.kids[p[0]], p[1..], q);
    }
  }

  lemma KidDicts(t: Tree, k: string)
    requires t.Node? && k in t.kids
    ensures Dicts(t.kids[k]) <= Dicts(t)
  {}

  /** Subtrees are trees laid out among the maps of the whole. */
  lemma {:induction false} SubtreeIsShaped(t: Tree, p: Path)
    requires Shaped(t) && Separate(t) && At(t, p).Some?
    ensures Shaped(At(t, p).value) && Separate(At(t, p).value) && Dicts(At(t, p).value) <= Dicts(t)
    decreases p
  {
    if p != [] {
      SubtreeIsShaped(t.kids[p[0]], p[1..]);
      KidDicts(t, p[0]);
    }
  }

  lemma {:induction false} DictsPut(t: Tree, p: Path, sub: Tree)
    requires At(t, p).Some?
    ensures Dicts(Put(t, p, sub)) <= Dicts(t) + Dicts(sub)
    decreases p
  {
    if p != [] {
      var u := Put(t, p, sub);
      DictsPut(t.kids[p[0]], p[1..], sub);
      KidDicts(t, p[0]);
      forall d | d in Dicts(u) ensures d in Dicts(t) + Dicts(sub) {
        if d != t.dict {
          var k :| k in u.kids && d in Dicts(u.kids[k]);
          if k != p[0] {
            KidDicts(t, k);
          }
        }
      }
    }
  }

  /** New maps in a subtree, if they are new to the whole tree, keep it a tree. */
  lemma {:induction false} SeparatePut(t: Tree, p: Path, sub: Tree)
    requires At(t, p).Some? && Separate(t) && Separate(sub)
    requires Dicts(sub) !! Dicts(t) - Dicts(At(t, p).value)
    ensures Separate(Put(t, p, sub))
    decreases p
  {
    if p != [] {
      var kid, u := t.kids[p[0]], Put(t, p, sub);
      KidDicts(t, p[0]);
      SubtreeDicts(kid, p[1..]);
      SeparatePut(kid, p[1..], sub);
      DictsPut(kid, p[1..], sub);
      assert t.dict !in Dicts(At(t, p).value);
      forall k | k in u.kids && k != p[0] ensures Dicts(u.kids[k]) !! Dicts(u.kids[p[0]]) {
        KidDicts(t, k);
        assert Dicts(t.kids[k]) !! Dicts(kid);
      }
    }
  }

  lemma {:induction false} SubtreeDicts(t: Tree, p: Path)
    requires At(t, p).Some?
    ensures Dicts(At(t, p).value) <= Dicts(t)
    decreases p
  {
    if p != [] {
      SubtreeDicts(t.kids[p[0]], p[1..]);
      KidDicts(t, p[0]);
    }
  }

  /** Nothing on the way to a subtree or beside it shares a map with it. */
  lemma Apart(t: Tree, p: Path)
    requires Separate(t) && At(t, p).Some? && p != []
    ensures t.dict !in Dicts(At(t, p).value)
    ensures Dicts(At(t, p).value) <= Dicts(t.kids[p[0]]) <= Dicts(t)
    ensures forall k :: k in t.kids && k != p[0] ==>
              Dicts(t.kids[k]) !! Dicts(At(t, p).value) && Dicts(t.kids[k]) <= Dicts(t)
  {
    SubtreeDicts(t.kids[p[0]], p[1..]);
  }

  /** The maps outside the subtree at `p` hold what the tree says. */
  ghost predicate ShapedAround(t: Tree, p: Path)
    requires Separate(t) && At(t, p).Some?
    reads Dicts(t) - Dicts(At(t, p).value)
    decreases p
  {
    if p == [] then true
    else
      Apart(t, p);
      && t.dict.items == (map k | k in t.kids :: Root(t.kids[k]))
      && (forall k :: k in t.kids && k != p[0] ==> Shaped(t.kids[k]))
      && ShapedAround(t.kids[p[0]], p[1..])
  }

  lemma {:induction false} TakeOut(t: Tree, p: Path)
    requires Shaped(t) && Separate(t) && At(t, p).Some?
    ensures ShapedAround(t, p) && Shaped(At(t, p).value)
    decreases p
  {
    if p != [] {
      TakeOut(t.kids[p[0]], p[1..]);
      Apart(t, p);
    }
  }

  /** A subtree laid out anew, in the same map, fits in. */
  lemma {:induction false} FitIn(t: Tree, p: Path, sub: Tree)
    requires Separate(t) && At(t, p).Some? && ShapedAround(t, p)
    requires Shaped(sub) && Root(sub) == Root(At(t, p).value)
    ensures Shaped(Put(t, p, sub)) && Root(Put(t, p, sub)) == Root(t)
    decreases p
  {
    if p != [] {
      FitIn(t.kids[p[0]], p[1..], sub);
      var u := Put(t, p, sub);
      assert (map k | k in u.kids :: Root(u.kids[k])) == (map k | k in t.kids :: Root(t.kids[k]));
      assert forall k :: k in u.kids ==> Shaped(u.kids[k]);
    }
  }

  /** A subtree laid out anew, in the same map and with new maps only, makes the whole tree
      one with that part replaced. */
  lemma Replaced(t: Tree, p: Path, sub: Tree)
    requires Separate(t) && At(t, p).Some? && ShapedAround(t, p)
    requires Shaped(sub) && Separate(sub) && Root(sub) == Root(At(t, p).value)
    requires Dicts(sub) !! Dicts(t) - Dicts(At(t, p).value)
    ensures var u := Put(t, p, sub);
            && Shaped(u) && Separate(u) && Root(u) == Root(t)
            && Dicts(u) <= Dicts(t) + Dicts(sub) && At(u, p) == Some(sub)
            && Erase(u) == PutAt(Erase(t), p, Erase(sub))
  {
    hide Shaped, ShapedAround, Separate, Dicts, Erase, PutAt;
    FitIn(t, p, sub);
    SeparatePut(t, p, sub);
    DictsPut(t, p, sub);
    ErasePut(t, p, sub);
    AtPut(t, p, sub, []);
    assert p + [] == p;
  }

  // ------------------------------------------------------------ single writes

  /** A node with another subtree under a key. */
  function WithKid(t: Tree, key: string, kid: Tree): Tree
    requires t.Node?
  {
    t.(kids := t.kids[key := kid])
  }

  function WithoutKid(t: Tree, key: string): Tree
    requires t.Node?
  {
    t.(kids := t.kids - {key})
  }

  lemma WithKidIsSeparate(t: Tree, key: string, kid: Tree)
    requires t.Node? && Separate(t) && Separate(kid) && Dicts(kid) !! Dicts(t)
    ensures Separate(WithKid(t, key, kid)) && Dicts(WithKid(t, key, kid)) <= Dicts(t) + Dicts(kid)
    ensures Erase(WithKid(t, key, kid)) == Object(Fields(Erase(t))[key := Erase(kid)])
  {}

  lemma WithoutKidIsSeparate(t: Tree, key: string)
    requires t.Node? && key in t.kids && Separate(t)
    ensures Separate(WithoutKid(t, key)) && Dicts(WithoutKid(t, key)) <= Dicts(t)
    ensures Dicts(t.kids[key]) !! Dicts(WithoutKid(t, key))
    ensures Erase(WithoutKid(t, key)) == Object(Fields(Erase(t)) - {key})
  {}

  /** The maps of a replaced part are gone. */
  lemma {:induction false} DictsReplaced(t: Tree, p: Path, sub: Tree)
    requires At(t, p).Some? && Separate(t)
    ensures Dicts(Put(t, p, sub)) <= Dicts(t) - Dicts(At(t, p).value) + Dicts(sub)
    decreases p
  {
    if p != [] {
      var u := Put(t, p, sub);
      DictsReplaced(t.kids[p[0]], p[1..], sub);
      Apart(t, p);
      forall d | d in Dicts(u) ensures d in Dicts(t) - Dicts(At(t, p).value) + Dicts(sub) {
        if d != t.dict {
          var k :| k in u.kids && d in Dicts(u.kids[k]);
        }
      }
    }
  }

  /** `d[key] = value` */
  method WriteItem(d: Dict, key: string, value: Value, ghost t: Tree, ghost kid: Tree)
    requires t.Node? && t.dict == d && Shaped(t) && Separate(t)
    requires Root(kid) == value && Shaped(kid) && d !in Dicts(kid)
    modifies d
    ensures Shaped(WithKid(t, key, kid))
  {
    d.items := d.items[key := value];
  }

  /** `delete(d, key)` */
  method DeleteItem(d: Dict, key: string, ghost t: Tree)
    requires t.Node? && t.dict == d && Shaped(t) && Separate(t)
    modifies d
    ensures Shaped(WithoutKid(t, key))
  {
    d.items := d.items - {key};
  }

  // --------------------------------------------------------------- the entry

  class Entry {
    var record: Value
    ghost var tree: Tree

    ghost predicate Valid()
      reads this, Dicts(tree)
    {
      Root(tree) == record && Shaped(tree) && Separate(tree)
    }

    ghost function Contents(): Record
      reads this
    {
      Erase(tree)
    }

    /** `d` is the map of the record at `p`. */
    ghost predicate Holds(p: Path, d: Dict)
      reads this
    {
      At(tree, p).Some? && Root(At(tree, p).value) == Map(d)
    }

    method Get(keys: Path) returns (value: Value, found: bool)
      requires Valid()
      ensures found <==> GetAt(Contents(), keys).Some?
      ensures found ==> At(tree, keys).Some? && value == Root(At(tree, keys).value)
                        && Erase(At(tree, keys).value) == GetAt(Contents(), keys).value
      ensures !found ==> value == Simple(Nil)
    {
      hide Shaped, Separate, Erase, GetAt;
      value := record;
      assert keys[..0] == [];
      EraseAt(tree, keys);
      for i := 0 to |keys|
        invariant Valid() && At(tree, keys[..i]).Some? && value == Root(At(tree, keys[..i]).value)
      {
        ghost var sub := At(tree, keys[..i]).value;
        StepDown(tree, keys, i);
        if !value.Map? {
          return Simple(Nil), false;
        }
        SubtreeIsShaped(tree, keys[..i]);
        NodeItems(sub);
        if keys[i] !in value.dict.items {
          return Simple(Nil), false;
        }
        value := value.dict.items[keys[i]];
      }
      assert keys[..|keys|] == keys;
      found := true;
    }

    /** `currentMap[key] = value`, for a map of the record and a value that shares no map
        with it. */
    method Assign(currentMap: Dict, key: string, value: Value, ghost p: Path, ghost t: Tree)
      requires Valid() && Holds(p, currentMap)
      requires Root(t) == value && Shaped(t) && Separate(t) && Dicts(t) !! Dicts(tree)
      modifies this`tree, currentMap
      ensures Valid() && Holds(p, currentMap) && At(tree, p + [key]) == Some(t)
      ensures Contents() == PutAt(old(Contents()), p + [key], Erase(t))
      ensures Dicts(tree) <= old(Dicts(tree)) + Dicts(t)
    {
      hide Shaped, ShapedAround, Separate, Erase, PutAt, GetAt, Put;
      ghost var sub := At(tree, p).value;
      ghost var node := WithKid(sub, key, t);
      TakeOut(tree, p);
      SubtreeIsShaped(tree, p);
      WithKidIsSeparate(sub, key, t);
      assert currentMap in Dicts(sub);
      assert allocated(Dicts(tree));
      WriteItem(currentMap, key, value, sub, t);
      assert ShapedAround(tree, p);
      Replaced(tree, p, node);
      EraseAt(tree, p);
      PutThrough(Erase(tree), p, [key], Erase(t));
      PutField(Erase(sub), key, Erase(t));
      tree := Put(tree, p, node);
      AtAppend(tree, p, [key]);
      AtKid(node, key);
    }

    /** `delete(currentMap, key)` */
    method Remove(currentMap: Dict, key: string, ghost p: Path)
      requires Valid() && Holds(p, currentMap) && At(tree, p + [key]).Some?
      modifies this`tree, currentMap
      ensures Valid() && Dicts(tree) <= old(Dicts(tree))
      ensures Contents() == DeleteAt(old(Contents()), p + [key])
      ensures var t := old(At(tree, p + [key]).value);
              Shaped(t) && Separate(t) && Dicts(t) <= old(Dicts(tree)) && Dicts(t) !! Dicts(tree)
    {
      hide Shaped, ShapedAround, Separate, Erase, PutAt, GetAt, DeleteAt, Put;
      ghost var sub := At(tree, p).value;
      ghost var node := WithoutKid(sub, key);
      AtAppend(tree, p, [key]);
      AtKid(sub, key);
      TakeOut(tree, p);
      SubtreeIsShaped(tree, p);
      KidIsShaped(sub, key);
      KidsOf(sub);
      WithoutKidIsSeparate(sub, key);
      assert currentMap in Dicts(sub);
      assert allocated(Dicts(tree));
      DeleteItem(currentMap, key, sub);
      assert ShapedAround(tree, p);
      Replaced(tree, p, node);
      DictsReplaced(tree, p, node);
      EraseAt(tree, p);
      EraseAt(tree, p + [key]);
      DeleteIsPut(Erase(tree), p, key);
      tree := Put(tree, p, node);
    }

    method Delete(keys: Path) returns (value: Value, found: bool)
      requires Valid()
      modifies this, Dicts(tree)
      ensures Valid() && Dicts(tree) <= old(Dicts(tree))
      ensures found <==> GetAt(old(Contents()), keys).Some?
      ensures found <==> old(At(tree, keys).Some?)
      ensures Contents() == DeleteAt(old(Contents()), keys)
      ensures !found ==> tree == old(tree) && value == Simple(Nil)
      ensures found ==>
        var t := old(At(tree, keys).value);
        && value == Root(t) && Erase(t) == GetAt(old(Contents()), keys).value
        && Shaped(t) && Separate(t) && Dicts(t) <= old(Dicts(tree)) && Dicts(t) !! Dicts(tree)
    {
      hide Shaped, Separate, Erase, GetAt, DeleteAt;
      EraseAt(tree, keys);
      if keys == [] {
        value, found := record, true;
        record := Simple(Nil);
        tree := Leaf(Nil);
        DeleteRoot(old(Contents()), tree);
        return;
      }
      value := record;
      assert keys[..0] == [];
      var i := 0;
      while i < |keys|
        invariant 0 <= i < |keys| && tree == old(tree) && Valid()
        invariant At(tree, keys[..i]).Some? && value == Root(At(tree, keys[..i]).value)
      {
        ghost var sub := At(tree, keys[..i]).value;
        StepDown(tree, keys, i);
        if !value.Map? {
          break;
        }
        SubtreeIsShaped(tree, keys[..i]);
        NodeItems(sub);
        var currentMap := value.dict;
        if keys[i] !in currentMap.items {
          break;
        }
        value := currentMap.items[keys[i]];
        if i == |keys| - 1 {
          assert keys[..i] + [keys[i]] == keys == keys[..i + 1];
          MapIsInside(tree, keys[..i], currentMap);
          Remove(currentMap, keys[i], keys[..i]);
          return value, true;
        }
        i := i + 1;
      }
      DeleteAbsent(Contents(), keys);
      return Simple(Nil), false;
    }

    /** The map under a key of `currentMap`; if there is none, a new one. */
    method GetNestedMap(currentMap: Dict, key: string, ghost p: Path) returns (nextMap: Dict)
      requires Valid() && Holds(p, currentMap)
      modifies this`tree, currentMap
      ensures Valid() && Holds(p + [key], nextMap)
      ensures Contents() == MergeAt(old(Contents()), p + [key], map[])
      ensures forall d :: d in Dicts(tree) ==> d in old(Dicts(tree)) || fresh(d)
    {
      hide Shaped, Separate, PutAt, Put, MergeAt;
      ghost var sub := At(tree, p).value;
      SubtreeIsShaped(tree, p);
      AtAppend(tree, p, [key]);
      EraseAt(tree, p + [key]);
      NodeItems(sub);
      if key in currentMap.items {
        AtKid(sub, key);
        if currentMap.items[key].Map? {
          nextMap := currentMap.items[key].dict;
          MergeNothing(Contents(), p + [key]);
          return;
        }
      }
      if key in sub.kids {
        AtKid(sub, key);
      }
      MergeIntoNoMap(Contents(), p + [key]);
      assert allocated(Dicts(tree));
      nextMap := new Dict();
      ghost var node := Node(nextMap, map[]);
      EmptyNode(node);
      Assign(currentMap, key, Map(nextMap), p, node);
    }

    /** The record's own map; a record that is not a map is replaced by an empty one. */
    method RootMap() returns (d: Dict)
      requires Valid()
      modifies this
      ensures Valid() && Holds([], d)
      ensures Contents() == MergeAt(old(Contents()), [], map[])
      ensures forall d :: d in Dicts(tree) ==> d in old(Dicts(tree)) || fresh(d)
    {
      if record.Map? {
        d := record.dict;
        MergeNothing(Contents(), []);
      } else {
        MergeIntoNoMap(Contents(), []);
        d := new Dict();
        record := Map(d);
        tree := Node(d, map[]);
        EmptyNode(tree);
      }
    }

    /** The map at the end of a path, made on the way where there is none. */
    method Walk(keys: Path) returns (currentMap: Dict)
      requires Valid()
      modifies this, Dicts(tree)
      ensures Valid() && Holds(keys, currentMap)
      ensures Contents() == MergeAt(old(Contents()), keys, map[])
      ensures forall d :: d in Dicts(tree) ==> d in old(Dicts(tree)) || fresh(d)
    {
      hide Shaped, Separate, PutAt, Put, MergeAt, Erase;
      ghost var mine := Dicts(tree);
      currentMap := RootMap();
      var i := 0;
      while i < |keys|
        invariant 0 <= i <= |keys| && Valid() && Holds(keys[..i], currentMap)
        invariant Contents() == MergeAt(old(Contents()), keys[..i], map[])
        invariant forall d :: d in Dicts(tree) ==> d in mine || fresh(d)
      {
        MapIsInside(tree, keys[..i], currentMap);
        currentMap := GetNestedMap(currentMap, keys[i], keys[..i]);
        MergeDeeper(old(Contents()), keys[..i], [keys[i]]);
        assert keys[..i] + [keys[i]] == keys[..i + 1];
        i := i + 1;
      }
      assert keys[..i] == keys;
    }

    method Merge(keys: Path, mapValues: Dict, ghost t: Tree)
      requires Valid()
      requires Root(t) == Map(mapValues) && Shaped(t) && Separate(t) && Dicts(t) !! Dicts(tree)
      modifies this, Dicts(tree)
      ensures Valid()
      ensures Contents() == MergeAt(old(Contents()), keys, Erase(t).fields)
      ensures forall d :: d in Dicts(tree) ==> d in old(Dicts(tree)) || d in Dicts(t) || fresh(d)
    {
      hide Shaped, Separate, PutAt, Put, MergeAt;
      assert allocated(Dicts(t));
      var currentMap := Walk(keys);
      MapIsInside(tree, keys, currentMap);
      MergeItems(currentMap, mapValues, keys, t);
      MergeMerge(old(Contents()), keys, Erase(t).fields);
    }

    /** The values of a map assigned one by one, in any order. */
    method MergeItems(currentMap: Dict, mapValues: Dict, ghost p: Path, ghost t: Tree)
      requires Valid() && Holds(p, currentMap)
      requires Root(t) == Map(mapValues) && Shaped(t) && Separate(t) && Dicts(t) !! Dicts(tree)
      modifies this`tree, currentMap
      ensures Valid()
      ensures Contents() == MergeAt(old(Contents()), p, Erase(t).fields)
      ensures Dicts(tree) <= old(Dicts(tree)) + Dicts(t)
    {
      hide PutAt, Put, MergeAt, GetAt, Valid, Erase, Separate, Shaped, Only;
      KidsOf(t);
      NodeItems(t);
      MapIsInside(tree, p, currentMap);
      IsObject(tree, p);
      MergeNothing(Contents(), p);
      OnlyNone(Erase(t).fields);
      assert allocated(Dicts(t));
      var rest := mapValues.items.Keys;
      ghost var done := {};
      while rest != {}
        invariant done !! rest && done + rest == t.kids.Keys
        invariant Shaped(t) && Valid() && Holds(p, currentMap)
        invariant forall k :: k in rest ==> Dicts(t.kids[k]) !! Dicts(tree)
        invariant Contents() == MergeAt(old(Contents()), p, Only(Erase(t).fields, done))
        invariant Dicts(tree) <= old(Dicts(tree)) + Dicts(t)
      {
        var key :| key in rest;
        MergeOneMore(old(Contents()), p, Only(Erase(t).fields, done), key, Erase(t.kids[key]));
        OnlyOneMore(Erase(t).fields, done, key);
        KidIsShaped(t, key);
        NodeItems(t);
        Assign(currentMap, key, mapValues.items[key], p, t.kids[key]);
        rest, done := rest - {key}, done + {key};
      }
      OnlyAll(Erase(t).fields, done);
    }

    method Set(keys: Path, value: Value, ghost t: Tree)
      requires Valid()
      requires Root(t) == value && Shaped(t) && Separate(t) && Dicts(t) !! Dicts(tree)
      modifies this, Dicts(tree)
      ensures Valid()
      ensures Contents() == SetAt(old(Contents()), keys, Erase(t))
      ensures forall d :: d in Dicts(tree) ==> d in old(Dicts(tree)) || d in Dicts(t) || fresh(d)
    {
      hide Shaped, Separate, PutAt, Put, MergeAt, Erase;
      EraseRoot(t);
      if value.Map? {
        Merge(keys, value.dict, t);
        return;
      }
      if keys == [] {
        record := value;
        tree := t;
        PutAtRoot(old(Contents()), Erase(t));
        return;
      }
      ghost var mine := Dicts(tree);
      var currentMap := RootMap();
      var i := 0;
      while true
        invariant 0 <= i < |keys| && Valid() && Holds(keys[..i], currentMap)
        invariant Contents() == MergeAt(old(Contents()), keys[..i], map[])
        invariant forall d :: d in Dicts(tree) ==> d in mine || fresh(d)
        decreases |keys| - i
      {
        var key := keys[i];
        MapIsInside(tree, keys[..i], currentMap);
        MergeDeeper(old(Contents()), keys[..i], [key]);
        PutDeeper(old(Contents()), keys[..i], [key], Erase(t));
        assert keys[..i] + [key] == keys[..i + 1];
        if i == |keys| - 1 {
          assert keys[..i + 1] == keys;
          Assign(currentMap, key, value, keys[..i], t);
          break;
        }
        currentMap := GetNestedMap(currentMap, key, keys[..i]);
        i := i + 1;
      }
    }
  }

  lemma MapIsInside(t: Tree, p: Path, d: Dict)
    requires At(t, p).Some? && Root(At(t, p).value) == Map(d)
    ensures d in Dicts(t)
  {
    SubtreeDicts(t, p);
  }

  lemma IsObject(t: Tree, p: Path)
    requires At(t, p).Some? && At(t, p).value.Node?
    ensures GetAt(Erase(t), p).Some? && GetAt(Erase(t), p).value.Object?
  {
    EraseAt(t, p);
  }

  lemma KidsOf(t: Tree)
    requires t.Node? && Separate(t)
    ensures Erase(t).Object? && Erase(t).fields.Keys == t.kids.Keys
    ensures forall k :: k in t.kids ==> Erase(t).fields[k] == Erase(t.kids[k])
    ensures forall k :: k in t.kids ==>
              Dicts(t.kids[k]) <= Dicts(t) && t.dict !in Dicts(t.kids[k]) && Separate(t.kids[k])
    ensures forall k, l :: k in t.kids && l in t.kids && k != l ==> Dicts(t.kids[k]) !! Dicts(t.kids[l])
  {}

  lemma KidIsShaped(t: Tree, key: string)
    requires t.Node? && Separate(t) && Shaped(t) && key in t.kids
    ensures Separate(t.kids[key]) && Shaped(t.kids[key])
  {}

  lemma EraseRoot(t: Tree)
    ensures t.Node? <==> Erase(t).Object?
  {}

  /** One step further on a path. */
  lemma StepDown(t: Tree, keys: Path, i: nat)
    requires i < |keys| && At(t, keys[..i]).Some?
    ensures var sub := At(t, keys[..i]).value;
            && (sub.Node? && keys[i] in sub.kids ==> At(t, keys[..i + 1]) == Some(sub.kids[keys[i]]))
            && (!(sub.Node? && keys[i] in sub.kids) ==> At(t, keys) == None)
  {
    var sub := At(t, keys[..i]).value;
    assert keys[..i] + keys[i..] == keys && keys[..i] + [keys[i]] == keys[..i + 1];
    AtAppend(t, keys[..i], keys[i..]);
    AtAppend(t, keys[..i], [keys[i]]);
    if sub.Node? && keys[i] in sub.kids {
      AtKid(sub, keys[i]);
    }
  }

  lemma DeleteRoot(r: Record, t: Tree)
    requires t == Leaf(Nil)
    ensures DeleteAt(r, []) == Erase(t) && Dicts(t) == {} && Shaped(t) && Separate(t)
  {}

  lemma NodeItems(t: Tree)
    requires t.Node? && Shaped(t)
    ensures t.dict.items.Keys == t.kids.Keys
    ensures forall k :: k in t.kids ==> t.dict.items[k] == Root(t.kids[k])
  {}

  lemma EmptyNode(t: Tree)
    requires t.Node? && t.kids == map[] && t.dict.items == map[]
    ensures Shaped(t) && Separate(t) && Dicts(t) == {t.dict} && Erase(t) == Object(map[])
  {}

  lemma AtKid(t: Tree, key: string)
    requires t.Node? && key in t.kids
    ensures At(t, [key]) == Some(t.kids[key])
  {
    assert At(t.kids[key], [key][1..]) == Some(t.kids[key]);
  }
}

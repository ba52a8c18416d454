// The flatten operator: operator/builtin/transformer/flatten/flatten.go.
module Flatten {
  import opened Records
  import opened RecordField

  /** Flattening the map at `field`, visiting its children in any order. A field that is
      missing or not a map is an error, and the record is as it was. */
  method Transform(entry: Entry, field: Path) returns (ok: bool)
    requires entry.Valid()
    modifies entry, Dicts(entry.tree)
    ensures entry.Valid()
    ensures ok <==> GetAt(old(entry.Contents()), field).Some? && GetAt(old(entry.Contents()), field).value.Object?
    ensures ok ==> entry.Contents() == Flattened(old(entry.Contents()), field)
    ensures !ok ==> entry.Contents() == old(entry.Contents())
  {
    hide Shaped, Separate, Erase, GetAt, PutAt, DeleteAt, SetAt;
    ghost var r := entry.Contents();
    ghost var found := At(entry.tree, field);
    var value, present := entry.Delete(field);
    if !present {
      return false;
    }
    ghost var t := found.value;
    EraseRoot(t);
    if !value.Map? {
      entry.Set(field, value, t);
      PutBack(r, field);
      return false;
    }
    SetChildren(entry, field, value.dict, t, r);
    ok := true;
  }

  /** A value that is not a map, deleted and set again. */
  lemma PutBack(r: Record, p: Path)
    requires GetAt(r, p).Some? && GetAt(r, p).value.Plain?
    ensures SetAt(DeleteAt(r, p), p, GetAt(r, p).value) == r
  {
    PutDeleted(r, p);
  }

  method SetChildren(entry: Entry, field: Path, valMap: Dict, ghost t: Tree, ghost r: Record)
    requires GetAt(r, field).Some? && GetAt(r, field).value == Erase(t)
    requires entry.Valid() && entry.Contents() == DeleteAt(r, field)
    requires Root(t) == Map(valMap) && Shaped(t) && Separate(t) && Dicts(t) !! Dicts(entry.tree)
    requires GetAt(r, field).value.Object?
    modifies entry, Dicts(entry.tree), Dicts(t)
    ensures entry.Valid() && entry.Contents() == Flattened(r, field)
  {
    hide Shaped, Separate, Erase, GetAt, PutAt, DeleteAt, SetAt, PartlyFlattened, Flattened;
    KidsOf(t);
    NodeItems(t);
    forall k | k in t.kids ensures Shaped(t.kids[k]) {
      KidIsShaped(t, k);
    }
    FlattenStart(r, field);
    assert allocated(Dicts(t));
    ghost var items, mine := valMap.items, Dicts(entry.tree) + Dicts(t);
    var rest := valMap.items.Keys;
    ghost var done := {};
    while rest != {}
      invariant done !! rest && done + rest == t.kids.Keys
      invariant entry.Valid() && valMap.items == items && valMap !in Dicts(entry.tree)
      invariant forall k :: k in rest ==> Shaped(t.kids[k]) && Dicts(t.kids[k]) !! Dicts(entry.tree)
      invariant entry.Contents() == PartlyFlattened(r, field, done)
      invariant forall d :: d in Dicts(entry.tree) ==> d in mine || fresh(d)
    {
      var key :| key in rest;
      FlattenStep(r, field, done, key);
      entry.Set(Child(Parent(field), key), valMap.items[key], t.kids[key]);
      rest, done := rest - {key}, done + {key};
    }
    FlattenEnd(r, field);
  }
}

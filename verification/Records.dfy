// What editing a record by a path means, on records as plain values: the specification of
// entry/record_field.go and of operator/builtin/transformer/flatten/flatten.go.
module Records {
  import opened Wrappers

  /** Anything that is not a map: nil, text, numbers, lists. */
  datatype Scalar = Nil | Text(text: string) | Other(id: int)

  datatype Record = Plain(scalar: Scalar) | Object(fields: map<string, Record>)

  type Path = seq<string>

  /** The fields of a record, none if it is not a map. */
  function Fields(r: Record): map<string, Record> {
    if r.Object? then r.fields else map[]
  }

  /** A field of a record, an empty map if there is none. */
  function Field(r: Record, key: string): Record {
    if key in Fields(r) then Fields(r)[key] else Object(map[])
  }

  function GetAt(r: Record, p: Path): Option<Record> {
    if p == [] then Some(r)
    else if p[0] in Fields(r) then GetAt(Fields(r)[p[0]], p[1..])
    else None
  }

  /** The record with `v` at `p`; whatever is not a map on the way becomes one. */
  function PutAt(r: Record, p: Path, v: Record): Record
    decreases p
  {
    if p == [] then v
    else Object(Fields(r)[p[0] := PutAt(Field(r, p[0]), p[1..], v)])
  }

  /** The fields that are at `p`. */
  function FieldsAt(r: Record, p: Path): map<string, Record> {
    match GetAt(r, p) case None => map[] case Some(v) => Fields(v)
  }

  function MergeAt(r: Record, p: Path, values: map<string, Record>): Record {
    PutAt(r, p, Object(FieldsAt(r, p) + values))
  }

  /** Setting a map merges it into what is there. */
  function SetAt(r: Record, p: Path, v: Record): Record {
    if v.Object? then MergeAt(r, p, v.fields) else PutAt(r, p, v)
  }

  /** Deleting the root leaves nil. */
  function DeleteAt(r: Record, p: Path): Record {
    if p == [] then Plain(Nil)
    else if p[0] !in Fields(r) then r
    else if |p| == 1 then Object(Fields(r) - {p[0]})
    else Object(Fields(r)[p[0] := DeleteAt(Fields(r)[p[0]], p[1..])])
  }

  predicate IsPrefix(p: Path, q: Path) {
    |p| <= |q| && q[..|p|] == p
  }

  predicate Incomparable(p: Path, q: Path) {
    !IsPrefix(p, q) && !IsPrefix(q, p)
  }

  /** A part of a map. */
  function Only(m: map<string, Record>, keys: set<string>): map<string, Record> {
    map key | key in m && key in keys :: m[key]
  }

  lemma OnlyNone(m: map<string, Record>)
    ensures Only(m, {}) == map[]
  {}

  lemma OnlyOneMore(m: map<string, Record>, keys: set<string>, key: string)
    requires key in m
    ensures Only(m, keys + {key}) == Only(m, keys)[key := m[key]]
  {}

  lemma OnlyAll(m: map<string, Record>, keys: set<string>)
    requires keys == m.Keys
    ensures Only(m, keys) == m
  {}

  // ------------------------------------------------------------------ laws

  lemma PrefixTail(p: Path, q: Path)
    requires p != [] && q != []
    ensures IsPrefix(p, q) <==> p[0] == q[0] && IsPrefix(p[1..], q[1..])
  {
    if |p| <= |q| {
      assert q[..|p|] == [q[0]] + q[1..][..|p| - 1];
      assert p == [p[0]] + p[1..];
    }
  }

  /** What was put at `p` is found there, with all that is in it. */
  lemma {:induction false} GetPut(r: Record, p: Path, v: Record, q: Path)
    ensures GetAt(PutAt(r, p, v), p + q) == GetAt(v, q)
    decreases p
  {
    if p == [] {
      assert p + q == q;
    } else {
      assert (p + q)[0] == p[0] && (p + q)[1..] == p[1..] + q;
      GetPut(Field(r, p[0]), p[1..], v, q);
    }
  }

  /** Elsewhere nothing changes, nothing disappears and nothing appears. */
  lemma {:induction false} PutElsewhere(r: Record, p: Path, v: Record, q: Path)
    requires Incomparable(p, q)
    ensures GetAt(PutAt(r, p, v), q) == GetAt(r, q)
    decreases p
  {
    assert p != [] && q != [];
    PrefixTail(p, q);
    PrefixTail(q, p);
    if p[0] == q[0] {
      PutElsewhere(Field(r, p[0]), p[1..], v, q[1..]);
      if p[0] !in Fields(r) {
        assert q[1..] != [];
      }
    }
  }

  /** `Get` after `Set`: a value that is not a map is found; a map is found merged over the
      fields that were there. */
  lemma GetSet(r: Record, p: Path, v: Record)
    ensures v.Plain? ==> GetAt(SetAt(r, p, v), p) == Some(v)
    ensures v.Object? ==> GetAt(SetAt(r, p, v), p) == Some(Object(FieldsAt(r, p) + v.fields))
  {
    assert p + [] == p;
    GetPut(r, p, if v.Object? then Object(FieldsAt(r, p) + v.fields) else v, []);
  }

  /** `Merge` makes each merged key readable and keeps the others. */
  lemma GetMerge(r: Record, p: Path, values: map<string, Record>, key: string, q: Path)
    ensures GetAt(MergeAt(r, p, values), p + [key] + q)
            == if key in values then GetAt(values[key], q)
               else if key in FieldsAt(r, p) then GetAt(FieldsAt(r, p)[key], q)
               else None
  {
    assert p + [key] + q == p + ([key] + q);
    GetPut(r, p, Object(FieldsAt(r, p) + values), [key] + q);
    assert ([key] + q)[0] == key && ([key] + q)[1..] == q;
  }

  lemma SetElsewhere(r: Record, p: Path, v: Record, q: Path)
    requires Incomparable(p, q)
    ensures GetAt(SetAt(r, p, v), q) == GetAt(r, q)
  {
    PutElsewhere(r, p, if v.Object? then Object(FieldsAt(r, p) + v.fields) else v, q);
  }

  /** What is deleted is gone, with all that is in it. */
  lemma {:induction false} GetDelete(r: Record, p: Path, q: Path)
    requires p != []
    ensures GetAt(DeleteAt(r, p), p + q) == None
    decreases p
  {
    assert (p + q)[0] == p[0] && (p + q)[1..] == p[1..] + q;
    if p[0] in Fields(r) && |p| > 1 {
      GetDelete(Fields(r)[p[0]], p[1..], q);
    }
  }

  lemma {:induction false} DeleteElsewhere(r: Record, p: Path, q: Path)
    requires Incomparable(p, q)
    ensures GetAt(DeleteAt(r, p), q) == GetAt(r, q)
    decreases p
  {
    assert p != [] && q != [];
    PrefixTail(p, q);
    PrefixTail(q, p);
    if p[0] == q[0] && p[0] in Fields(r) {
      assert |p| > 1;
      DeleteElsewhere(Fields(r)[p[0]], p[1..], q[1..]);
    }
  }

  /** Deleting what is not there changes nothing. */
  lemma {:induction false} DeleteAbsent(r: Record, p: Path)
    requires GetAt(r, p) == None
    ensures DeleteAt(r, p) == r
    decreases p
  {
    if p[0] in Fields(r) {
      DeleteAbsent(Fields(r)[p[0]], p[1..]);
      assert Fields(r)[p[0] := Fields(r)[p[0]]] == Fields(r);
    }
  }

  /** Setting what was deleted puts it back. */
  lemma {:induction false} PutDeleted(r: Record, p: Path)
    requires GetAt(r, p).Some?
    ensures PutAt(DeleteAt(r, p), p, GetAt(r, p).value) == r
    decreases p
  {
    if p != [] {
      var v := GetAt(r, p).value;
      var kid := Fields(r)[p[0]];
      var d := DeleteAt(r, p);
      if |p| == 1 {
        assert p[1..] == [];
        assert v == kid;
      } else {
        PutDeleted(kid, p[1..]);
      }
      assert PutAt(d, p, v) == Object(Fields(d)[p[0] := kid]);
      assert Fields(d)[p[0] := kid] == Fields(r);
    }
  }

  /** Putting twice at one path is putting once. */
  lemma {:induction false} PutPut(r: Record, p: Path, q: Path, v: Record, w: Record)
    ensures PutAt(PutAt(r, p, v), p + q, w) == PutAt(r, p, PutAt(v, q, w))
    decreases p
  {
    if p == [] {
      assert p + q == q;
    } else {
      assert (p + q)[0] == p[0] && (p + q)[1..] == p[1..] + q;
      PutPut(Field(r, p[0]), p[1..], q, v, w);
      var a, b := PutAt(Field(r, p[0]), p[1..], v), PutAt(Field(r, p[0]), p[1..], PutAt(v, q, w));
      assert Fields(r)[p[0] := a][p[0] := b] == Fields(r)[p[0] := b];
    }
  }

  /** Putting below `p` is putting at `p` what is there with the change. */
  lemma {:induction false} PutThrough(r: Record, p: Path, q: Path, w: Record)
    requires GetAt(r, p).Some?
    ensures PutAt(r, p + q, w) == PutAt(r, p, PutAt(GetAt(r, p).value, q, w))
    decreases p
  {
    if p == [] {
      assert p + q == q;
    } else {
      assert (p + q)[0] == p[0] && (p + q)[1..] == p[1..] + q;
      PutThrough(Fields(r)[p[0]], p[1..], q, w);
    }
  }

  /** Merging nothing into a map changes nothing. */
  lemma {:induction false} MergeNothing(r: Record, p: Path)
    requires GetAt(r, p).Some? && GetAt(r, p).value.Object?
    ensures MergeAt(r, p, map[]) == r
    decreases p
  {
    if p == [] {
      assert r.fields + map[] == r.fields;
    } else {
      MergeNothing(Fields(r)[p[0]], p[1..]);
    }
  }

  lemma MergeIntoNoMap(r: Record, p: Path)
    requires FieldsAt(r, p) == map[]
    ensures MergeAt(r, p, map[]) == PutAt(r, p, Object(map[]))
  {
    assert FieldsAt(r, p) + map[] == map[];
  }

  lemma {:induction false} GetAppend(r: Record, p: Path, q: Path)
    ensures GetAt(r, p + q) == match GetAt(r, p) case None => None case Some(v) => GetAt(v, q)
    decreases p
  {
    if p == [] {
      assert p + q == q;
    } else if p[0] in Fields(r) {
      assert (p + q)[0] == p[0] && (p + q)[1..] == p[1..] + q;
      GetAppend(Fields(r)[p[0]], p[1..], q);
    }
  }

  /** Making a map of `p` first does not matter to what is put below it. */
  lemma {:induction false} PutDeeper(r: Record, p: Path, q: Path, w: Record)
    requires q != []
    ensures PutAt(MergeAt(r, p, map[]), p + q, w) == PutAt(r, p + q, w)
    decreases p
  {
    if p == [] {
      assert p + q == q;
      assert Fields(r) + map[] == Fields(r);
    } else {
      var kid := Field(r, p[0]);
      assert (p + q)[0] == p[0] && (p + q)[1..] == p[1..] + q;
      PutDeeper(kid, p[1..], q, w);
      assert FieldsAt(r, p) == FieldsAt(kid, p[1..]);
      var a, b := MergeAt(kid, p[1..], map[]), PutAt(kid, p[1..] + q, w);
      assert MergeAt(r, p, map[]) == Object(Fields(r)[p[0] := a]);
      assert Fields(r)[p[0] := a][p[0] := b] == Fields(r)[p[0] := b];
    }
  }

  lemma MergeDeeper(r: Record, p: Path, q: Path)
    requires q != []
    ensures MergeAt(MergeAt(r, p, map[]), p + q, map[]) == MergeAt(r, p + q, map[])
  {
    var s := MergeAt(r, p, map[]);
    GetAppend(r, p, q);
    GetPut(r, p, Object(FieldsAt(r, p) + map[]), q);
    assert FieldsAt(r, p) + map[] == FieldsAt(r, p);
    assert FieldsAt(s, p + q) == FieldsAt(r, p + q);
    PutDeeper(r, p, q, Object(FieldsAt(r, p + q) + map[]));
  }

  /** Merging in two steps. */
  lemma MergeMerge(r: Record, p: Path, values: map<string, Record>)
    ensures MergeAt(MergeAt(r, p, map[]), p, values) == MergeAt(r, p, values)
  {
    var m := FieldsAt(r, p) + map[];
    assert p + [] == p;
    GetPut(r, p, Object(m), []);
    PutPut(r, p, [], Object(m), Object(m + values));
    assert m == FieldsAt(r, p);
  }

  lemma MergeOneMore(r: Record, p: Path, values: map<string, Record>, key: string, v: Record)
    ensures PutAt(MergeAt(r, p, values), p + [key], v) == MergeAt(r, p, values[key := v])
  {
    var m := FieldsAt(r, p) + values;
    PutPut(r, p, [key], Object(m), v);
    PutField(Object(m), key, v);
    assert m[key := v] == FieldsAt(r, p) + values[key := v];
  }

  lemma PutAtRoot(r: Record, v: Record)
    ensures PutAt(r, [], v) == v
  {}

  lemma PutField(r: Record, key: string, v: Record)
    ensures PutAt(r, [key], v) == Object(Fields(r)[key := v])
  {
    assert PutAt(Field(r, key), [key][1..], v) == v;
  }

  /** Deleting a field is putting its parent without it. */
  lemma {:induction false} DeleteIsPut(r: Record, p: Path, key: string)
    requires GetAt(r, p + [key]).Some?
    ensures DeleteAt(r, p + [key]) == PutAt(r, p, Object(FieldsAt(r, p) - {key}))
    decreases p
  {
    var pk := p + [key];
    if p == [] {
      assert pk == [key];
    } else {
      assert pk[0] == p[0] && pk[1..] == p[1..] + [key];
      DeleteIsPut(Fields(r)[p[0]], p[1..], key);
    }
  }

  // --------------------------------------------------------------- flatten

  /** The root is its own parent. */
  function Parent(p: Path): Path {
    if p == [] then p else p[..|p| - 1]
  }

  function Child(p: Path, key: string): Path {
    p + [key]
  }

  /** One child of the flattened map over what the parent holds under its name: a map is
      merged, one level, into a map. */
  function Overlaid(below: map<string, Record>, key: string, child: Record): Record {
    if child.Object? && key in below then Object(Fields(below[key]) + child.fields) else child
  }

  /** Fields overlaid by the children of the flattened map. */
  function Overlay(below: map<string, Record>, children: map<string, Record>): map<string, Record> {
    map key | key in below.Keys + children.Keys ::
      if key in children then Overlaid(below, key, children[key]) else below[key]
  }

  /** The record after flattening the map at `p`: its parent without that key, overlaid by
      the children. The root has no parent: its children are set on nil, so that an empty
      root becomes nil and any other stays as it is. */
  function Flattened(r: Record, p: Path): Record
    requires GetAt(r, p).Some? && GetAt(r, p).value.Object?
  {
    var children := GetAt(r, p).value.fields;
    if p == [] then
      if children == map[] then Plain(Nil) else r
    else
      var parent, key := p[..|p| - 1], p[|p| - 1];
      PutAt(r, parent, Object(Overlay(FieldsAt(r, parent) - {key}, children)))
  }

  /** Flattening the root changes nothing, unless it is an empty map: that becomes nil. */
  lemma FlattenedRoot(r: Record)
    requires r.Object?
    ensures Flattened(r, []) == (if r.fields == map[] then Plain(Nil) else r)
    ensures Flattened(r, []) != r <==> r == Object(map[])
  {}

  /** Setting the children one by one, in the order given. */
  function SetEach(r: Record, parent: Path, children: map<string, Record>, order: seq<string>): Record
    requires forall k :: k in order ==> k in children
    decreases |order|
  {
    if order == [] then r
    else
      var n := |order| - 1;
      SetAt(SetEach(r, parent, children, order[..n]), parent + [order[n]], children[order[n]])
  }

  /** What the record is once the children in `done` are set. */
  function PartlyFlattened(r: Record, p: Path, done: set<string>): Record
    requires GetAt(r, p).Some? && GetAt(r, p).value.Object?
  {
    var children := Only(GetAt(r, p).value.fields, done);
    if p == [] then
      if done == {} then Plain(Nil) else Object(children)
    else
      var parent, key := p[..|p| - 1], p[|p| - 1];
      PutAt(r, parent, Object(Overlay(FieldsAt(r, parent) - {key}, children)))
  }

  /** Setting a child on a map that was put at `parent`. */
  lemma SetChild(r: Record, parent: Path, m: map<string, Record>, key: string, child: Record)
    ensures SetAt(PutAt(r, parent, Object(m)), parent + [key], child)
            == PutAt(r, parent, Object(m[key := Overlaid(m, key, child)]))
  {
    var s := PutAt(r, parent, Object(m));
    GetPut(r, parent, Object(m), [key]);
    var before := GetAt(Object(m), [key]);
    assert key in m ==> before == GetAt(m[key], [key][1..]);
    var v := if child.Object? then Object(FieldsAt(s, parent + [key]) + child.fields) else child;
    PutPut(r, parent, [key], Object(m), v);
    assert PutAt(Object(m), [key], v) == Object(m[key := v]);
    if child.Object? && key !in m {
      assert map[] + child.fields == child.fields;
    }
  }

  lemma OverlayOneMore(below: map<string, Record>, children: map<string, Record>, done: set<string>, key: string)
    requires key in children && key !in done
    ensures var m := Overlay(below, Only(children, done));
            m[key := Overlaid(m, key, children[key])] == Overlay(below, Only(children, done + {key}))
  {}

  lemma FlattenStart(r: Record, p: Path)
    requires GetAt(r, p).Some? && GetAt(r, p).value.Object?
    ensures PartlyFlattened(r, p, {}) == DeleteAt(r, p)
  {
    if p != [] {
      var parent, key := p[..|p| - 1], p[|p| - 1];
      var below, children := FieldsAt(r, parent) - {key}, GetAt(r, p).value.fields;
      assert p == parent + [key];
      DeleteIsPut(r, parent, key);
      assert Overlay(below, Only(children, {})) == below;
    }
  }

  lemma FlattenStep(r: Record, p: Path, done: set<string>, key: string)
    requires GetAt(r, p).Some? && GetAt(r, p).value.Object?
    requires key in GetAt(r, p).value.fields && key !in done
    ensures SetAt(PartlyFlattened(r, p, done), Parent(p) + [key], GetAt(r, p).value.fields[key])
            == PartlyFlattened(r, p, done + {key})
  {
    var children := GetAt(r, p).value.fields;
    if p == [] {
      var m := Only(children, done);
      SetChild(Plain(Nil), [], m, key, children[key]);
      assert [] + [key] == [key];
      assert m[key := children[key]] == Only(children, done + {key});
      if done == {} {
        assert m == map[];
        SetOnNothing([key], children[key]);
      }
    } else {
      var parent := p[..|p| - 1];
      var below := FieldsAt(r, parent) - {p[|p| - 1]};
      OverlayOneMore(below, children, done, key);
      SetChild(r, parent, Overlay(below, Only(children, done)), key, children[key]);
    }
  }

  /** Setting a field on nil and on an empty map is the same. */
  lemma SetOnNothing(p: Path, v: Record)
    requires p != []
    ensures SetAt(Plain(Nil), p, v) == SetAt(Object(map[]), p, v)
  {}

  lemma FlattenEnd(r: Record, p: Path)
    requires GetAt(r, p).Some? && GetAt(r, p).value.Object?
    ensures PartlyFlattened(r, p, GetAt(r, p).value.fields.Keys) == Flattened(r, p)
  {
    var children := GetAt(r, p).value.fields;
    assert Only(children, children.Keys) == children;
    assert children.Keys == {} ==> children == map[];
    assert children == map[] ==> children.Keys == {};
  }

  ghost predicate Distinct(order: seq<string>) {
    forall i, j :: 0 <= i < j < |order| ==> order[i] != order[j]
  }

  function Keys(order: seq<string>): set<string> {
    set k | k in order
  }

  /** Flattening gives the same for every order in which the children may be visited. */
  lemma FlattenInAnyOrder(r: Record, p: Path, order: seq<string>)
    requires GetAt(r, p).Some? && GetAt(r, p).value.Object?
    requires Distinct(order) && Keys(order) == GetAt(r, p).value.fields.Keys
    ensures forall k :: k in order ==> k in GetAt(r, p).value.fields
    ensures SetEach(DeleteAt(r, p), Parent(p), GetAt(r, p).value.fields, order) == Flattened(r, p)
  {
    assert forall k :: k in order ==> k in Keys(order);
    FlattenSome(r, p, order);
    FlattenEnd(r, p);
  }

  lemma {:induction false} FlattenSome(r: Record, p: Path, order: seq<string>)
    requires GetAt(r, p).Some? && GetAt(r, p).value.Object?
    requires Distinct(order) && forall k :: k in order ==> k in GetAt(r, p).value.fields
    ensures SetEach(DeleteAt(r, p), Parent(p), GetAt(r, p).value.fields, order)
            == PartlyFlattened(r, p, Keys(order))
    decreases |order|
  {
    hide SetAt, PartlyFlattened, DeleteAt;
    if order == [] {
      FlattenStart(r, p);
      assert Keys(order) == {};
    } else {
      var n := |order| - 1;
      FlattenSome(r, p, order[..n]);
      FlattenStep(r, p, Keys(order[..n]), order[n]);
      assert Keys(order) == Keys(order[..n]) + {order[n]} by {
        assert order == order[..n] + [order[n]];
      }
    }
  }
}

// Grouping entries by their resource: the partitioning of `buildProtoRequest` in
// operator/builtin/output/otlp/convert.go.
module OtlpGroups {
  import opened Sequences

  type Resource = map<string, string>

  /** An entry: its resource, and all the rest. */
  datatype LogRecord = LogRecord(resource: Resource, rest: int)

  // ------------------------------------------------------------ sorted keys

  /** The order of `sort.Strings`. */
  predicate Less(a: string, b: string) {
    if a == "" then b != ""
    else if b == "" then false
    else a[0] < b[0] || (a[0] == b[0] && Less(a[1..], b[1..]))
  }

  lemma {:induction false} LessIsTotal(a: string, b: string)
    ensures a == b || Less(a, b) || Less(b, a)
    ensures !(Less(a, b) && Less(b, a)) && !Less(a, a)
  {
    if a != "" && b != "" {
      LessIsTotal(a[1..], b[1..]);
      assert a == [a[0]] + a[1..] && b == [b[0]] + b[1..];
    }
    if a != "" {
      LessIsTotal(a[1..], a[1..]);
    }
  }

  lemma {:induction false} LessIsTransitive(a: string, b: string, c: string)
    requires Less(a, b) && Less(b, c)
    ensures Less(a, c)
  {
    if a != "" && a[0] == b[0] == c[0] {
      LessIsTransitive(a[1..], b[1..], c[1..]);
    }
  }

  ghost predicate Sorted(keys: seq<string>) {
    forall i, j :: 0 <= i < j < |keys| ==> Less(keys[i], keys[j])
  }

  function Elements(keys: seq<string>): set<string> {
    set k | k in keys
  }

  /** A key put in its place. */
  function Insert(key: string, keys: seq<string>): seq<string> {
    if keys == [] then [key]
    else if Less(key, keys[0]) then [key] + keys
    else [keys[0]] + Insert(key, keys[1..])
  }

  lemma {:induction false} InsertElements(key: string, keys: seq<string>)
    ensures Elements(Insert(key, keys)) == Elements(keys) + {key}
  {
    if keys != [] && !Less(key, keys[0]) {
      InsertElements(key, keys[1..]);
      assert keys == [keys[0]] + keys[1..];
      assert Elements(keys) == {keys[0]} + Elements(keys[1..]);
      assert Elements(Insert(key, keys)) == {keys[0]} + Elements(Insert(key, keys[1..]));
    }
  }

  lemma SortedCons(key: string, keys: seq<string>)
    ensures Sorted([key] + keys) <==> Sorted(keys) && forall k :: k in keys ==> Less(key, k)
  {
    var all := [key] + keys;
    assert forall i :: 0 <= i < |keys| ==> all[i + 1] == keys[i];
    if Sorted(all) {
      forall i, j | 0 <= i < j < |keys| ensures Less(keys[i], keys[j]) {
        assert Less(all[i + 1], all[j + 1]);
      }
      forall k | k in keys ensures Less(key, k) {
        var i :| 0 <= i < |keys| && keys[i] == k;
        assert Less(all[0], all[i + 1]);
      }
    } else if Sorted(keys) && forall k :: k in keys ==> Less(key, k) {
      forall i, j | 0 <= i < j < |all| ensures Less(all[i], all[j]) {
        assert all[j] == keys[j - 1] && (i > 0 ==> all[i] == keys[i - 1]);
      }
    }
  }

  lemma {:induction false} InsertIsSorted(key: string, keys: seq<string>)
    requires Sorted(keys) && key !in keys
    ensures Sorted(Insert(key, keys))
  {
    if keys == [] {
    } else {
      var first, rest := keys[0], keys[1..];
      assert keys == [first] + rest;
      SortedCons(first, rest);
      LessIsTotal(key, first);
      if Less(key, first) {
        forall k | k in keys ensures Less(key, k) {
          if k != first {
            LessIsTransitive(key, first, k);
          }
        }
        SortedCons(key, keys);
      } else {
        InsertIsSorted(key, rest);
        InsertElements(key, rest);
        assert forall k :: k in Insert(key, rest) ==> k in Elements(rest) + {key};
        SortedCons(first, Insert(key, rest));
      }
    }
  }

  lemma SomeElement(keys: seq<string>)
    ensures Elements(keys) == {} <==> keys == []
  {
    if keys != [] {
      assert keys[0] in Elements(keys);
    }
  }

  /** There is one way to sort a set of keys. */
  lemma {:induction false} SortedIsUnique(a: seq<string>, b: seq<string>)
    requires Sorted(a) && Sorted(b) && Elements(a) == Elements(b)
    ensures a == b
  {
    SomeElement(a);
    SomeElement(b);
    if a != [] {
      assert a == [a[0]] + a[1..] && b == [b[0]] + b[1..];
      SortedCons(a[0], a[1..]);
      SortedCons(b[0], b[1..]);
      assert a[0] in Elements(b) && b[0] in Elements(a);
      LessIsTotal(a[0], b[0]);
      assert a[0] == b[0];
      LessIsTotal(a[0], a[0]);
      assert Elements(a) == {a[0]} + Elements(a[1..]) && Elements(b) == {b[0]} + Elements(b[1..]);
      assert a[0] !in Elements(a[1..]) && b[0] !in Elements(b[1..]);
      SortedIsUnique(a[1..], b[1..]);
    }
  }

  /** The keys in order. */
  ghost function SortedOf(keys: set<string>): (r: seq<string>)
    ensures Sorted(r) && Elements(r) == keys
  {
    if keys == {} then []
    else
      var k :| k in keys;
      var rest := SortedOf(keys - {k});
      assert k !in Elements(rest);
      InsertIsSorted(k, rest);
      InsertElements(k, rest);
      Insert(k, rest)
  }

  // --------------------------------------------------------------- encoding

  /** Keys with their values, each as "|key:value". */
  function Encode(keys: seq<string>, values: Resource): string
    requires forall k :: k in keys ==> k in values
  {
    if keys == [] then ""
    else "|" + keys[0] + ":" + values[keys[0]] + Encode(keys[1..], values)
  }

  ghost function UniqueKey(r: Resource): string {
    assert forall k :: k in SortedOf(r.Keys) ==> k in Elements(SortedOf(r.Keys));
    Encode(SortedOf(r.Keys), r)
  }

  /** No separator where it could be taken for one. */
  predicate Unambiguous(r: Resource) {
    forall k :: k in r ==> '|' !in k && ':' !in k && '|' !in r[k]
  }

  /** The end of a string, or the place where `c` occurs. */
  predicate EndsOr(c: char, s: string) {
    s == "" || s[0] == c
  }

  lemma FirstOf(a: string, x: string)
    ensures if a == "" then a + x == x else a + x != "" && (a + x)[0] == a[0]
  {}

  lemma {:induction false} CutAt(c: char, a: string, x: string, b: string, y: string)
    requires a + x == b + y && c !in a && c !in b && EndsOr(c, x) && EndsOr(c, y)
    ensures a == b && x == y
  {
    FirstOf(a, x);
    FirstOf(b, y);
    if a != "" && b != "" {
      assert (a + x)[1..] == a[1..] + x && (b + y)[1..] == b[1..] + y;
      CutAt(c, a[1..], x, b[1..], y);
      assert a == [a[0]] + a[1..] && b == [b[0]] + b[1..];
    }
  }

  lemma EncodeStarts(keys: seq<string>, values: Resource)
    requires forall k :: k in keys ==> k in values
    ensures EndsOr('|', Encode(keys, values)) && (Encode(keys, values) == "" <==> keys == [])
    ensures keys != [] ==>
      Encode(keys, values) == "|" + (keys[0] + (":" + (values[keys[0]] + Encode(keys[1..], values))))
  {
    if keys != [] {
      var key, v, rest := keys[0], values[keys[0]], Encode(keys[1..], values);
      Associative("|", key, ":");
      Associative("|" + key, ":", v);
      Associative("|" + key + ":", v, rest);
      assert "|" + (key + (":" + (v + rest))) == "|" + key + ":" + v + rest;
    }
  }

  /** The encoding of unambiguous pairs can be read in one way only. */
  lemma {:induction false} EncodeIsInjective(a: seq<string>, r: Resource, b: seq<string>, s: Resource)
    requires Unambiguous(r) && Unambiguous(s)
    requires (forall k :: k in a ==> k in r) && (forall k :: k in b ==> k in s)
    requires Encode(a, r) == Encode(b, s)
    ensures a == b && forall k :: k in a ==> r[k] == s[k]
    decreases |a|
  {
    EncodeStarts(a, r);
    EncodeStarts(b, s);
    if a != [] {
      var k, l := a[0], b[0];
      EncodeStarts(a[1..], r);
      EncodeStarts(b[1..], s);
      var x, y := Encode(a[1..], r), Encode(b[1..], s);
      assert k + (":" + (r[k] + x)) == Encode(a, r)[1..] == l + (":" + (s[l] + y));
      CutAt(':', k, ":" + (r[k] + x), l, ":" + (s[l] + y));
      assert r[k] + x == (":" + (r[k] + x))[1..] == s[l] + y;
      CutAt('|', r[k], x, s[l], y);
      EncodeIsInjective(a[1..], r, b[1..], s);
      assert a == [k] + a[1..] && b == [l] + b[1..];
    }
  }

  /** Among unambiguous resources, equal keys mean equal resources. */
  lemma UniqueKeyIsInjective(r: Resource, s: Resource)
    requires Unambiguous(r) && Unambiguous(s)
    ensures UniqueKey(r) == UniqueKey(s) <==> r == s
  {
    var a, b := SortedOf(r.Keys), SortedOf(s.Keys);
    assert (forall k :: k in a ==> k in Elements(a)) && (forall k :: k in b ==> k in Elements(b));
    if UniqueKey(r) == UniqueKey(s) {
      EncodeIsInjective(a, r, b, s);
      assert r.Keys == s.Keys;
      assert forall k :: k in r.Keys ==> k in a;
    }
  }

  /** Every resource of two labels or more shares its key with another resource, one that
      is ambiguous: the condition cannot be left out. */
  lemma LongerResourcesCollide(r: Resource) returns (s: Resource)
    requires |r| >= 2
    ensures s != r && UniqueKey(s) == UniqueKey(r)
  {
    var keys := SortedOf(r.Keys);
    assert forall k :: k in keys ==> k in Elements(keys);
    EncodeStarts(keys, r);
    SomeElement(keys);
    var key := keys[0];
    var value := r[key] + Encode(keys[1..], r);
    s := map[key := value];
    assert s.Keys == {key};
    SortedIsUnique([key], SortedOf({key}));
    EncodeStarts([key], s);
    assert Encode([key][1..], s) == "" && value + "" == value;
    assert |s| == 1;
  }

  // --------------------------------------------------------------- grouping

  /** The entries with a given key, in order. */
  ghost function WithKey(entries: seq<LogRecord>, key: string): seq<LogRecord> {
    if entries == [] then []
    else
      var n := |entries| - 1;
      WithKey(entries[..n], key) + if UniqueKey(entries[n].resource) == key then [entries[n]] else []
  }

  /** The entries with a given resource, in order. */
  ghost function WithResource(entries: seq<LogRecord>, r: Resource): seq<LogRecord> {
    if entries == [] then []
    else
      var n := |entries| - 1;
      WithResource(entries[..n], r) + if entries[n].resource == r then [entries[n]] else []
  }

  /** Each key that occurs, with its entries. */
  ghost predicate Partitions(groups: map<string, seq<LogRecord>>, entries: seq<LogRecord>) {
    && (forall e :: e in entries ==> UniqueKey(e.resource) in groups)
    && (forall key :: key in groups ==> groups[key] != [] && groups[key] == WithKey(entries, key))
  }

  lemma {:induction false} WithKeyIsSound(entries: seq<LogRecord>, key: string)
    ensures forall e :: e in WithKey(entries, key) <==> e in entries && UniqueKey(e.resource) == key
    decreases |entries|
  {
    if entries != [] {
      var n := |entries| - 1;
      WithKeyIsSound(entries[..n], key);
      assert entries == entries[..n] + [entries[n]];
    }
  }

  ghost predicate Distinct(keys: seq<string>) {
    forall i, j :: 0 <= i < j < |keys| ==> keys[i] != keys[j]
  }

  /** The keys of a map, met in any order. */
  method CollectKeys(r: Resource) returns (keys: seq<string>)
    ensures Elements(keys) == r.Keys && Distinct(keys)
  {
    keys := [];
    var rest := r.Keys;
    while rest != {}
      invariant Elements(keys) !! rest && Elements(keys) + rest == r.Keys && Distinct(keys)
    {
      var key :| key in rest;
      assert key !in Elements(keys);
      assert Elements(keys + [key]) == Elements(keys) + {key};
      keys, rest := keys + [key], rest - {key};
    }
  }

  /** `sort.Strings` */
  method SortStrings(keys: seq<string>) returns (sorted: seq<string>)
    requires Distinct(keys)
    ensures Sorted(sorted) && Elements(sorted) == Elements(keys)
  {
    hide Less, Insert;
    sorted := [];
    for i := 0 to |keys|
      invariant Sorted(sorted) && Elements(sorted) == Elements(keys[..i])
    {
      assert keys[i] !in keys[..i];
      assert keys[i] !in Elements(sorted);
      InsertIsSorted(keys[i], sorted);
      InsertElements(keys[i], sorted);
      assert keys[..i + 1] == keys[..i] + [keys[i]];
      assert Elements(keys[..i + 1]) == Elements(keys[..i]) + {keys[i]};
      sorted := Insert(keys[i], sorted);
    }
    assert keys[..|keys|] == keys;
  }

  lemma EncodeStep(before: string, keys: seq<string>, r: Resource)
    requires keys != [] && forall k :: k in keys ==> k in r
    ensures before + Encode(keys, r) == (before + "|" + keys[0] + ":" + r[keys[0]]) + Encode(keys[1..], r)
  {
    var key, more := keys[0], Encode(keys[1..], r);
    Associative(before, "|" + key + ":" + r[key], more);
    Associative(before, "|" + key + ":", r[key]);
    Associative(before, "|" + key, ":");
    Associative(before, "|", key);
  }

  /** The key of one entry. */
  method BuildKey(r: Resource) returns (uniqueKey: string)
    ensures uniqueKey == UniqueKey(r)
  {
    hide Less, Sorted, Encode;
    var collected := CollectKeys(r);
    var keys := SortStrings(collected);
    SortedIsUnique(keys, SortedOf(r.Keys));
    assert forall k :: k in keys ==> k in Elements(keys);
    uniqueKey := "";
    assert keys[0..] == keys;
    FirstOf("", Encode(keys, r));
    for i := 0 to |keys|
      invariant UniqueKey(r) == uniqueKey + Encode(keys[i..], r)
    {
      EncodeStep(uniqueKey, keys[i..], r);
      assert keys[i..][1..] == keys[i + 1..] && keys[i..][0] == keys[i];
      uniqueKey := uniqueKey + "|" + keys[i] + ":" + r[keys[i]];
    }
    EncodeStarts(keys[|keys|..], r);
  }

  lemma Nobody(entries: seq<LogRecord>)
    ensures entries != [] ==> entries[0] in entries
  {}

  lemma PartitionsOneMore(groups: map<string, seq<LogRecord>>, entries: seq<LogRecord>, e: LogRecord)
    requires Partitions(groups, entries)
    ensures var key := UniqueKey(e.resource);
            Partitions(groups[key := (if key in groups then groups[key] else []) + [e]], entries + [e])
  {
    var key, more := UniqueKey(e.resource), entries + [e];
    var now := groups[key := (if key in groups then groups[key] else []) + [e]];
    assert more[..|entries|] == entries;
    forall k | k in now ensures now[k] != [] && now[k] == WithKey(more, k) {
      if k == key && key !in groups {
        WithKeyIsSound(entries, key);
        Nobody(WithKey(entries, key));
      }
    }
  }

  method Partition(entries: seq<LogRecord>) returns (groups: map<string, seq<LogRecord>>)
    ensures Partitions(groups, entries)
  {
    hide UniqueKey;
    groups := map[];
    for i := 0 to |entries|
      invariant Partitions(groups, entries[..i])
    {
      PartitionsOneMore(groups, entries[..i], entries[i]);
      assert entries[..i + 1] == entries[..i] + [entries[i]];
      var key := BuildKey(entries[i].resource);
      if key in groups {
        groups := groups[key := groups[key] + [entries[i]]];
      } else {
        assert [] + [entries[i]] == [entries[i]];
        groups := groups[key := [entries[i]]];
      }
    }
    assert entries[..|entries|] == entries;
  }

  /** Every entry is in one group only, and no group holds anything else. */
  lemma EachEntryInOneGroup(groups: map<string, seq<LogRecord>>, entries: seq<LogRecord>, key: string, e: LogRecord)
    requires Partitions(groups, entries) && key in groups
    ensures e in groups[key] <==> e in entries && key == UniqueKey(e.resource)
  {
    WithKeyIsSound(entries, key);
  }

  /** `at` are the places of the entries with a key, in order. */
  ghost predicate PlacesOf(entries: seq<LogRecord>, key: string, at: seq<nat>) {
    && Within(at, |entries|)
    && (forall k :: 0 <= k < |at| ==> HasKey(entries[at[k]], key))
    && (forall j, k :: 0 <= j < k < |at| ==> at[j] < at[k])
    && (forall i :: 0 <= i < |entries| && HasKey(entries[i], key) ==> i in at)
  }

  ghost predicate HasKey(e: LogRecord, key: string) {
    UniqueKey(e.resource) == key
  }

  predicate Within(at: seq<nat>, n: nat) {
    forall k :: 0 <= k < |at| ==> at[k] < n
  }

  function At(entries: seq<LogRecord>, at: seq<nat>): seq<LogRecord>
    requires Within(at, |entries|)
  {
    seq(|at|, k requires 0 <= k < |at| => entries[at[k]])
  }

  lemma PlacesOneMore(entries: seq<LogRecord>, e: LogRecord, key: string, at: seq<nat>)
    requires PlacesOf(entries, key, at)
    ensures PlacesOf(entries + [e], key, if HasKey(e, key) then at + [|entries|] else at)
  {
    hide HasKey;
    var more, n := entries + [e], |entries|;
    var at' := if HasKey(e, key) then at + [n] else at;
    forall k | 0 <= k < |at'| ensures at'[k] < |more| && HasKey(more[at'[k]], key) {
      assert k < |at| ==> more[at[k]] == entries[at[k]];
    }
    forall i | 0 <= i < |more| && HasKey(more[i], key) ensures i in at' {
      if i == n {
        assert at'[|at|] == n;
      } else {
        assert more[i] == entries[i] && i in at;
        var k :| 0 <= k < |at| && at[k] == i;
        assert at'[k] == i;
      }
    }
  }

  /** A group holds its entries in input order, every one of them. */
  lemma {:induction false} GroupsKeepOrder(entries: seq<LogRecord>, key: string) returns (at: seq<nat>)
    ensures PlacesOf(entries, key, at) && WithKey(entries, key) == At(entries, at)
    decreases |entries|
  {
    if entries == [] {
      at := [];
    } else {
      hide UniqueKey, PlacesOf, At, WithKey, HasKey, Within;
      var n := |entries| - 1;
      var before, last := entries[..n], entries[n];
      var places := GroupsKeepOrder(before, key);
      assert entries == before + [last];
      PlacesOneMore(before, last, key, places);
      WithKeyOneMore(before, last, key);
      PlacesWithin(before, key, places);
      AtOneMore(before, last, places);
      at := if HasKey(last, key) then places + [n] else places;
      PlacesWithin(entries, key, at);
    }
  }

  lemma WithKeyOneMore(entries: seq<LogRecord>, e: LogRecord, key: string)
    ensures WithKey(entries + [e], key) == if HasKey(e, key) then WithKey(entries, key) + [e] else WithKey(entries, key)
  {
    hide UniqueKey;
    assert (entries + [e])[..|entries|] == entries;
  }

  lemma AtOneMore(entries: seq<LogRecord>, e: LogRecord, at: seq<nat>)
    requires Within(at, |entries|)
    ensures Within(at, |entries + [e]|) && Within(at + [|entries|], |entries + [e]|)
    ensures At(entries + [e], at) == At(entries, at)
    ensures At(entries + [e], at + [|entries|]) == At(entries, at) + [e]
  {}

  lemma PlacesWithin(entries: seq<LogRecord>, key: string, at: seq<nat>)
    requires PlacesOf(entries, key, at)
    ensures Within(at, |entries|)
  {}

  ghost predicate AllUnambiguous(entries: seq<LogRecord>) {
    forall e :: e in entries ==> Unambiguous(e.resource)
  }

  lemma {:induction false} KeyGroupsAreResourceGroups(entries: seq<LogRecord>, r: Resource)
    requires AllUnambiguous(entries) && Unambiguous(r)
    ensures WithKey(entries, UniqueKey(r)) == WithResource(entries, r)
    decreases |entries|
  {
    if entries != [] {
      var n := |entries| - 1;
      assert forall e :: e in entries[..n] ==> e in entries;
      KeyGroupsAreResourceGroups(entries[..n], r);
      UniqueKeyIsInjective(entries[n].resource, r);
    }
  }

  // ---------------------------------------------------------------- request

  datatype Group = Group(resource: Resource, entries: seq<LogRecord>)

  /** A group is all entries of its key, with the resource of the first. */
  ghost predicate IsGroup(g: Group, entries: seq<LogRecord>) {
    g.entries != [] && g.resource == g.entries[0].resource && g.entries == WithKey(entries, UniqueKey(g.resource))
  }

  ghost predicate GroupsByKey(request: seq<Group>, entries: seq<LogRecord>) {
    && (forall i, j :: 0 <= i < j < |request| ==> UniqueKey(request[i].resource) != UniqueKey(request[j].resource))
    && (forall i :: 0 <= i < |request| ==> IsGroup(request[i], entries))
    && (forall e :: e in entries ==>
          exists i :: 0 <= i < |request| && UniqueKey(request[i].resource) == UniqueKey(e.resource))
  }

  /** One group of logs for each part of the partition, in any order. */
  method BuildRequest(entries: seq<LogRecord>) returns (request: seq<Group>)
    ensures GroupsByKey(request, entries)
  {
    hide UniqueKey, IsGroup;
    var groups := Partition(entries);
    ghost var order: seq<string> := [];
    request := [];
    var rest := groups.Keys;
    while rest != {}
      invariant rest <= groups.Keys && |order| == |request| && Distinct(order)
      invariant forall key :: key in order <==> key in groups.Keys - rest
      invariant forall i :: 0 <= i < |request| ==>
        order[i] in groups && IsGroup(request[i], entries) && UniqueKey(request[i].resource) == order[i]
    {
      var key :| key in rest;
      GroupOf(groups, entries, key);
      assert key !in order;
      DistinctOneMore(order, key);
      request, order := request + [Group(groups[key][0].resource, groups[key])], order + [key];
      rest := rest - {key};
    }
    forall e | e in entries
      ensures exists i :: 0 <= i < |request| && UniqueKey(request[i].resource) == UniqueKey(e.resource)
    {
      var key := UniqueKey(e.resource);
      assert key in order;
      var i :| 0 <= i < |order| && order[i] == key;
      assert UniqueKey(request[i].resource) == key;
    }
  }

  lemma GroupOf(groups: map<string, seq<LogRecord>>, entries: seq<LogRecord>, key: string)
    requires Partitions(groups, entries) && key in groups
    ensures var r := groups[key][0].resource;
            IsGroup(Group(r, groups[key]), entries) && UniqueKey(r) == key
  {
    EachEntryInOneGroup(groups, entries, key, groups[key][0]);
  }

  lemma DistinctOneMore(keys: seq<string>, key: string)
    requires Distinct(keys) && key !in keys
    ensures Distinct(keys + [key])
  {}

  /** If all resources are unambiguous, the groups are those of the resources: one group for
      each resource that occurs, with exactly the entries of that resource in order. */
  lemma GroupsByResource(request: seq<Group>, entries: seq<LogRecord>)
    requires GroupsByKey(request, entries) && AllUnambiguous(entries)
    ensures forall i, j :: 0 <= i < j < |request| ==> request[i].resource != request[j].resource
    ensures forall i :: 0 <= i < |request| ==>
      request[i].entries != [] && request[i].entries == WithResource(entries, request[i].resource)
    ensures forall e :: e in entries ==> exists i :: 0 <= i < |request| && request[i].resource == e.resource
  {
    hide UniqueKey, Unambiguous;
    forall i | 0 <= i < |request|
      ensures Unambiguous(request[i].resource) && request[i].entries == WithResource(entries, request[i].resource)
    {
      var first := request[i].entries[0];
      WithKeyIsSound(entries, UniqueKey(request[i].resource));
      assert first in request[i].entries;
      KeyGroupsAreResourceGroups(entries, first.resource);
    }
    forall e | e in entries ensures exists i :: 0 <= i < |request| && request[i].resource == e.resource {
      var i :| 0 <= i < |request| && UniqueKey(request[i].resource) == UniqueKey(e.resource);
      UniqueKeyIsInjective(request[i].resource, e.resource);
    }
  }
}

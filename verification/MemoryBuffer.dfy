// The memory buffer of operator/buffer/memory.go as a sequential object: reading,
// marking, saving on close and loading on build. A channel is a sequence bounded by
// max_entries, the semaphore a counter of permits held, and a bucket of the database a
// map from 8-byte keys; encoding an entry and decoding it again gives it back.
module MemoryBuffer {
  import opened Sequences
  import opened Bags

  const TWO_TO_THE_64: nat := 0x1_0000_0000_0000_0000

  type Key = seq<Byte>

  // -------------------------------------------------------------------- keys

  function LittleEndian(n: nat, width: nat): (r: Key)
    ensures |r| == width
  {
    if width == 0 then [] else [(n % 256) as Byte] + LittleEndian(n / 256, width - 1)
  }

  function FromLittleEndian(k: Key): nat {
    if k == [] then 0 else k[0] as nat + 256 * FromLittleEndian(k[1..])
  }

  function Power(width: nat): nat {
    if width == 0 then 1 else 256 * Power(width - 1)
  }

  lemma {:induction false} LittleEndianRoundTrip(n: nat, width: nat)
    requires n < Power(width)
    ensures FromLittleEndian(LittleEndian(n, width)) == n
  {
    if width != 0 {
      LittleEndianRoundTrip(n / 256, width - 1);
      assert LittleEndian(n, width)[1..] == LittleEndian(n / 256, width - 1);
    }
  }

  function KeyOf(id: nat): Key {
    LittleEndian(id, 8)
  }

  /** The low byte comes first, so that keys are not in the order of ids: the key of 256 comes
      before that of 1. */
  lemma LowByteFirst(id: nat)
    ensures |KeyOf(id)| == 8 && KeyOf(id)[0] as nat == id % 256
    ensures KeyOf(256)[0] < KeyOf(1)[0]
  {}


  lemma KeysDiffer(a: nat, b: nat)
    requires a < TWO_TO_THE_64 && b < TWO_TO_THE_64 && a != b
    ensures KeyOf(a) != KeyOf(b)
  {
    assert Power(4) == 0x1_0000_0000 by {
      assert Power(2) == 0x1_0000;
    }
    assert Power(6) == 0x1_0000_0000_0000;
    assert Power(8) == TWO_TO_THE_64;
    LittleEndianRoundTrip(a, 8);
    LittleEndianRoundTrip(b, 8);
  }

  // ---------------------------------------------------------------- contents

  /** The queue numbered from the id after `last` on. */
  function Numbered<E>(queue: seq<E>, last: nat): map<nat, E> {
    if queue == [] then map[]
    else
      var n := |queue| - 1;
      Numbered(queue[..n], last)[last + |queue| := queue[n]]
  }

  lemma {:induction false} NumberedIds<E>(queue: seq<E>, last: nat)
    ensures forall i :: i in Numbered(queue, last) <==> last < i <= last + |queue|
    decreases |queue|
  {
    if queue != [] {
      NumberedIds(queue[..|queue| - 1], last);
    }
  }

  lemma {:induction false} NumberedValues<E>(queue: seq<E>, last: nat)
    ensures Values(Numbered(queue, last)) == multiset(queue)
    decreases |queue|
  {
    hide Values;
    if queue == [] {
      ValuesEmpty(Numbered(queue, last));
    } else {
      var n := |queue| - 1;
      var front := Numbered(queue[..n], last);
      NumberedIds(queue[..n], last);
      calc {
        Values(Numbered(queue, last));
        { ValuesAdd<nat, E>(front, last + |queue|, queue[n]); }
        Values(front) + multiset{queue[n]};
        { NumberedValues(queue[..n], last); }
        multiset(queue[..n]) + multiset{queue[n]};
        { assert queue == queue[..n] + [queue[n]]; }
        multiset(queue);
      }
    }
  }

  lemma NumberedNext<E>(queue: seq<E>, e: E, last: nat)
    ensures Numbered(queue + [e], last) == Numbered(queue, last)[last + |queue| + 1 := e]
  {
    assert (queue + [e])[..|queue|] == queue;
  }

  ghost predicate IdsBelow<E>(m: map<nat, E>, bound: nat) {
    forall id :: id in m ==> id < bound
  }

  /** The entries `m` under the keys of their ids. */
  ghost function Keyed<E>(m: map<nat, E>): (r: map<Key, E>)
    requires IdsBelow(m, TWO_TO_THE_64)
    ensures forall k :: k in r <==> exists id :: id in m && k == KeyOf(id)
    ensures forall id :: id in m ==> r[KeyOf(id)] == m[id]
  {
    KeysInjective(m);
    map id | id in m :: KeyOf(id) := m[id]
  }

  lemma KeysInjective<E>(m: map<nat, E>)
    requires IdsBelow(m, TWO_TO_THE_64)
    ensures forall a, b :: a in m && b in m && KeyOf(a) == KeyOf(b) ==> a == b
  {
    forall a, b | a in m && b in m && a != b ensures KeyOf(a) != KeyOf(b) {
      KeysDiffer(a, b);
    }
  }

  lemma KeyedMinus<E>(m: map<nat, E>, id: nat)
    requires IdsBelow(m, TWO_TO_THE_64) && id in m
    ensures Keyed(m) - {KeyOf(id)} == Keyed(m - {id})
  {
    hide KeyOf;
    KeysInjective(m);
    var a, b := Keyed(m), Keyed(m - {id});
    assert forall j :: j in m - {id} <==> j in m && j != id;
    assert b.Keys == a.Keys - {KeyOf(id)};
    forall k | k in b ensures b[k] == a[k] {
      var j :| j in m - {id} && k == KeyOf(j);
    }
    MinusOne(a, KeyOf(id), b);
  }

  lemma {:induction false} KeyedValues<E>(m: map<nat, E>)
    requires IdsBelow(m, TWO_TO_THE_64)
    ensures Values(Keyed(m)) == Values(m)
    decreases |m|
  {
    hide Values;
    if m == map[] {
      ValuesEmpty(Keyed(m));
      ValuesEmpty(m);
    } else {
      var id :| id in m;
      calc {
        Values(Keyed(m));
        { ValuesRemove(Keyed(m), KeyOf(id)); KeyedMinus(m, id); }
        multiset{m[id]} + Values(Keyed(m - {id}));
        { KeyedValues(m - {id}); }
        multiset{m[id]} + Values(m - {id});
        { ValuesRemove(m, id); }
        Values(m);
      }
    }
  }

  lemma KeyedPlus<E>(m: map<nat, E>, id: nat, e: E)
    requires IdsBelow(m, TWO_TO_THE_64) && id < TWO_TO_THE_64 && id !in m
    ensures Keyed(m[id := e]) == Keyed(m)[KeyOf(id) := e]
  {
    hide KeyOf;
    var all := m[id := e];
    KeysInjective(all);
    KeyedMinus(all, id);
    assert all - {id} == m;
    PlusOne(Keyed(all), KeyOf(id));
  }

  /** The in-flight entries under their ids, and those of a queue under new ones. */
  ghost function Remaining<E>(inFlight: map<nat, E>, queue: seq<E>, last: nat): map<nat, E> {
    inFlight + Numbered(queue, last)
  }

  lemma RemainingNone<E>(inFlight: map<nat, E>, last: nat)
    ensures Remaining(inFlight, [], last) == inFlight
  {}

  lemma RemainingNext<E>(inFlight: map<nat, E>, queue: seq<E>, last: nat, e: E)
    ensures Remaining(inFlight, queue + [e], last) == Remaining(inFlight, queue, last)[last + |queue| + 1 := e]
  {
    NumberedNext(queue, e, last);
  }

  lemma RemainingValues<E>(inFlight: map<nat, E>, queue: seq<E>, last: nat)
    requires IdsBelow(inFlight, last + 1)
    ensures Values(Remaining(inFlight, queue, last)) == Values(inFlight) + multiset(queue)
    ensures |Remaining(inFlight, queue, last)| == |inFlight| + |queue|
  {
    hide Values;
    NumberedIds(queue, last);
    ValuesUnion<nat, E>(inFlight, Numbered(queue, last));
    NumberedValues(queue, last);
    ValuesSize<nat, E>(inFlight);
    ValuesSize<nat, E>(Remaining(inFlight, queue, last));
  }

  /** The bucket after `Close`. */
  ghost function Closed<E>(bucket: map<Key, E>, inFlight: map<nat, E>, queue: seq<E>, last: nat): map<Key, E>
    requires IdsBelow(inFlight, last + 1) && last + |queue| < TWO_TO_THE_64
  {
    NumberedIds(queue, last);
    bucket + Keyed(Remaining(inFlight, queue, last))
  }

  /** Nothing that was not flushed is missing from the bucket. What it held before stays
      unless its key is written again, so the bucket holds exactly the unflushed entries
      if and only if every key it held before is written again. */
  lemma CloseSavesUnflushed<E>(bucket: map<Key, E>, inFlight: map<nat, E>, queue: seq<E>, last: nat)
    requires IdsBelow(inFlight, last + 1) && last + |queue| < TWO_TO_THE_64
    ensures IdsBelow(Remaining(inFlight, queue, last), TWO_TO_THE_64)
    ensures var written := Keyed(Remaining(inFlight, queue, last));
            var unflushed := Values(inFlight) + multiset(queue);
            && Values(Closed(bucket, inFlight, queue, last)) == unflushed + Values(bucket - written.Keys)
            && (Values(Closed(bucket, inFlight, queue, last)) == unflushed <==> bucket.Keys <= written.Keys)
            && |written| == |inFlight| + |queue|
  {
    hide Values;
    hide Keyed;
    NumberedIds(queue, last);
    var remaining := Remaining(inFlight, queue, last);
    RemainingValues(inFlight, queue, last);
    KeyedValues(remaining);
    ValuesSize<nat, E>(remaining);
    ValuesSize(Keyed(remaining));
    ValuesOverwrite(bucket, Keyed(remaining));
  }

  ghost function IdSet(ids: seq<nat>): set<nat> {
    set id | id in ids
  }

  lemma IdSetNone<E>(ids: seq<nat>, start: nat, m: map<nat, E>)
    requires start <= |ids|
    ensures m - IdSet(ids[start..start]) == m
  {}

  lemma IdsBelowMinus<E>(m: map<nat, E>, ids: set<nat>, bound: nat)
    requires IdsBelow(m, bound)
    ensures IdsBelow(m - ids, bound)
  {}

  ghost predicate Distinct(ids: seq<nat>) {
    forall i, j :: 0 <= i < j < |ids| ==> ids[i] != ids[j]
  }

  lemma IdSetNext(ids: seq<nat>, start: nat, i: nat)
    requires start <= i < |ids| && Distinct(ids)
    ensures IdSet(ids[start..i + 1]) == IdSet(ids[start..i]) + {ids[i]} && ids[i] !in IdSet(ids[start..i])
  {
    assert ids[start..i + 1] == ids[start..i] + [ids[i]];
  }

  // ------------------------------------------------------------------ object

  class MemoryBuffer<E(!new)> {
    const maxEntries: nat
    var held: nat
    var queue: seq<E>
    var inFlight: map<nat, E>
    var entryId: nat

    ghost predicate Valid()
      reads this
    {
      && held == |queue| + |inFlight| <= maxEntries
      && IdsBelow(inFlight, entryId + 1) && entryId < TWO_TO_THE_64
    }

    /** The entries a close must not lose. */
    ghost function Unflushed(): multiset<E>
      reads this
    {
      Values(inFlight) + multiset(queue)
    }

    constructor (maxEntries: nat)
      ensures Valid() && this.maxEntries == maxEntries && queue == [] && inFlight == map[] && held == entryId == 0
    {
      this.maxEntries := maxEntries;
      held, queue, inFlight, entryId := 0, [], map[], 0;
    }

    /** `Add`: it takes a permit, and then the queue has room. A call that finds no permit
        waits for one; it fails if its context ends before there is one. */
    method Add(e: E) returns (ok: bool)
      requires Valid()
      modifies this
      ensures Valid() && (ok <==> old(held) < maxEntries)
      ensures queue == (if ok then old(queue) + [e] else old(queue))
      ensures held == (if ok then old(held) + 1 else old(held))
      ensures inFlight == old(inFlight) && entryId == old(entryId)
    {
      ok := held < maxEntries;
      if ok {
        held, queue := held + 1, queue + [e];
      }
    }

    /** `Read`: up to `size` entries from the front of the queue, each put in flight under
        a new id before the next is taken. */
    method Read(size: nat) returns (dst: seq<E>, ids: seq<nat>)
      requires Valid() && entryId + size < TWO_TO_THE_64
      modifies this`queue, this`inFlight, this`entryId
      ensures Valid()
      ensures old(queue) == dst + queue && (|dst| == size || queue == [])
      ensures inFlight == Remaining(old(inFlight), dst, old(entryId)) && entryId == old(entryId) + |dst|
      ensures |ids| == |dst| && forall i :: 0 <= i < |ids| ==> ids[i] == old(entryId) + 1 + i
    {
      hide Remaining;
      RemainingNone(inFlight, entryId);
      dst, ids := [], [];
      while |dst| < size && queue != []
        invariant Valid() && |dst| <= size
        invariant old(queue) == dst + queue
        invariant inFlight == Remaining(old(inFlight), dst, old(entryId)) && entryId == old(entryId) + |dst|
        invariant |ids| == |dst| && forall i :: 0 <= i < |ids| ==> ids[i] == old(entryId) + 1 + i
      {
        MoveOne(dst, queue);
        var e, id := Take();
        RemainingNext(old(inFlight), dst, old(entryId), e);
        dst, ids := dst + [e], ids + [id];
      }
    }

    /** Move the first entry of the queue in flight. */
    method Take() returns (e: E, id: nat)
      requires Valid() && queue != [] && entryId + 1 < TWO_TO_THE_64
      modifies this`queue, this`inFlight, this`entryId
      ensures Valid() && id == entryId == old(entryId) + 1
      ensures e == old(queue)[0] && queue == old(queue)[1..] && inFlight == old(inFlight)[id := e]
    {
      e, queue, entryId := queue[0], queue[1..], entryId + 1;
      id := entryId;
      inFlight := inFlight[id := e];
    }

    /** `MarkRangeAsFlushed` on the ids of one read, none of which was marked before. */
    method MarkRange(ids: seq<nat>, start: nat, end: nat) returns (ok: bool)
      requires Valid() && Distinct(ids)
      requires forall i :: start <= i < end && i < |ids| ==> ids[i] in inFlight
      requires start <= end
      modifies this`held, this`inFlight
      ensures ok <==> end <= |ids|
      ensures Valid()
      ensures inFlight == if ok then old(inFlight) - IdSet(ids[start..end]) else old(inFlight)
      ensures held == if ok then old(held) - (end - start) else old(held)
    {
      hide Distinct, IdSet, IdsBelow;
      if end > |ids| || start > |ids| {
        return false;
      }
      var i := start;
      IdSetNone(ids, start, inFlight);
      while i < end
        invariant start <= i <= end && held == old(held)
        invariant inFlight == old(inFlight) - IdSet(ids[start..i])
        invariant |inFlight| == |old(inFlight)| - (i - start)
      {
        IdSetNext(ids, start, i);
        MinusMore<nat, E>(old(inFlight), IdSet(ids[start..i]), ids[i]);
        inFlight := inFlight - {ids[i]};
        i := i + 1;
      }
      held := held - (end - start);
      IdsBelowMinus(old(inFlight), IdSet(ids[start..end]), entryId + 1);
      ok := true;
    }

    /** `Close`: the in-flight entries in whatever order the map yields them, then the
        queue. */
    method Close(bucket: map<Key, E>) returns (saved: map<Key, E>)
      requires Valid() && entryId + |queue| < TWO_TO_THE_64
      modifies this`queue, this`entryId
      ensures saved == Closed(bucket, old(inFlight), old(queue), old(entryId))
      ensures queue == [] && entryId == old(entryId) + |old(queue)|
    {
      hide Keyed, KeyOf, Remaining, Numbered, Values;
      ghost var first := entryId;
      saved := SaveInFlight(bucket);
      ghost var sent: seq<E> := [];
      RemainingNone(inFlight, first);
      while queue != []
        invariant old(queue) == sent + queue && entryId == first + |sent|
        invariant RemainingBelow(inFlight, sent, first)
        invariant saved == bucket + Keyed(Remaining(inFlight, sent, first))
      {
        MoveOne(sent, queue);
        var e := queue[0];
        queue, entryId := queue[1..], entryId + 1;
        SaveNext(bucket, inFlight, sent, first, e, entryId, saved);
        saved, sent := saved[KeyOf(entryId) := e], sent + [e];
      }
      assert sent == old(queue);
    }

    method SaveInFlight(bucket: map<Key, E>) returns (saved: map<Key, E>)
      requires IdsBelow(inFlight, TWO_TO_THE_64)
      ensures saved == bucket + Keyed(inFlight)
    {
      hide Keyed, KeyOf;
      saved := bucket;
      var pending := inFlight.Keys;
      ghost var done: map<nat, E> := map[];
      KeyedNone(done);
      while pending != {}
        invariant pending <= inFlight.Keys && done == inFlight - pending
        invariant saved == bucket + Keyed(done)
        decreases pending
      {
        var id :| id in pending;
        KeyedPlus(done, id, inFlight[id]);
        UnionPlus(bucket, Keyed(done), KeyOf(id), inFlight[id]);
        saved := saved[KeyOf(id) := inFlight[id]];
        done, pending := done[id := inFlight[id]], pending - {id};
      }
      assert done == inFlight;
    }

    /** `loadFromDB` on a new buffer: one permit for each entry, or failure. */
    method Load(bucket: map<Key, E>) returns (ok: bool)
      requires Valid() && queue == [] && inFlight == map[]
      modifies this`held, this`queue
      ensures ok <==> |bucket| <= maxEntries
      ensures ok ==> Valid() && multiset(queue) == Values(bucket) && held == |bucket|
    {
      hide Values;
      var left := bucket;
      while left != map[]
        invariant held == |queue| <= maxEntries && |left| + held == |bucket|
        invariant multiset(queue) + Values(left) == Values(bucket)
        decreases |left|
      {
        var k :| k in left;
        if held == maxEntries {
          return false;
        }
        ValuesRemove(left, k);
        OneLess(multiset(queue), left[k], Values(left - {k}));
        held, queue, left := held + 1, queue + [left[k]], left - {k};
      }
      ValuesEmpty(left);
      return true;
    }
  }

  ghost predicate RemainingBelow<E>(inFlight: map<nat, E>, queue: seq<E>, last: nat) {
    && IdsBelow(inFlight, last + 1) && last + |queue| < TWO_TO_THE_64
    && IdsBelow(Remaining(inFlight, queue, last), TWO_TO_THE_64)
  }

  lemma KeyedNone<E>(m: map<nat, E>)
    requires m == map[]
    ensures Keyed(m) == map[]
  {}

  lemma SaveNext<E>(bucket: map<Key, E>, inFlight: map<nat, E>, queue: seq<E>, last: nat, e: E,
                    id: nat, saved: map<Key, E>)
    requires RemainingBelow(inFlight, queue, last) && id == last + |queue| + 1 < TWO_TO_THE_64
    requires saved == bucket + Keyed(Remaining(inFlight, queue, last))
    ensures RemainingBelow(inFlight, queue + [e], last)
    ensures saved[KeyOf(id) := e] == bucket + Keyed(Remaining(inFlight, queue + [e], last))
  {
    hide Keyed, KeyOf;
    var before := Remaining(inFlight, queue, last);
    RemainingNext(inFlight, queue, last, e);
    NumberedIds(queue, last);
    KeyedPlus(before, id, e);
    UnionPlus(bucket, Keyed(before), KeyOf(id), e);
  }

  /** Close, then build on the same bucket: the new buffer holds exactly the entries that
      were not flushed, or cannot be built when they are more than it may hold. */
  method CloseThenBuild<E(!new)>(buffer: MemoryBuffer<E>, maxEntries: nat) returns (ok: bool, next: MemoryBuffer<E>)
    requires buffer.Valid() && buffer.entryId + |buffer.queue| < TWO_TO_THE_64
    modifies buffer
    ensures ok <==> old(buffer.held) <= maxEntries
    ensures ok ==> next.Valid() && next.inFlight == map[] && multiset(next.queue) == old(buffer.Unflushed())
    ensures ok ==> next.held == old(buffer.held)
  {
    hide Values, Keyed, Remaining;
    CloseSavesUnflushed(map[], buffer.inFlight, buffer.queue, buffer.entryId);
    var saved := buffer.Close(map[]);
    next := new MemoryBuffer<E>(maxEntries);
    ok := next.Load(saved);
  }

  // --------------------------------------------------------------- two lives

  /** The keys of the ids after `last` up to `end`. */
  ghost function NewKeys(last: nat, end: nat): set<Key> {
    set id | last < id <= end :: KeyOf(id)
  }

  lemma WrittenKeys<E>(queue: seq<E>, last: nat)
    requires last + |queue| < TWO_TO_THE_64
    ensures IdsBelow(Remaining(map[], queue, last), TWO_TO_THE_64)
    ensures Keyed(Remaining(map[], queue, last)).Keys == NewKeys(last, last + |queue|)
  {
    NumberedIds(queue, last);
    var m := Remaining(map[], queue, last);
    assert forall id :: id in m <==> last < id <= last + |queue|;
    forall k ensures k in Keyed(m) <==> k in NewKeys(last, last + |queue|) {
      if k in Keyed(m) {
        var id :| id in m && k == KeyOf(id);
      }
    }
  }

  /** A buffer is built on a bucket, some of the entries are flushed, and it is closed. The
      bucket was not cleared: the entries that were not flushed are written over those of some
      of its keys, and the others are loaded once more by the next build, flushed or not. */
  method SecondLife<E(!new)>(bucket: map<Key, E>, maxEntries: nat, size: nat)
      returns (ok: bool, flushed: seq<E>, left: seq<E>, saved: map<Key, E>)
    requires |bucket| < TWO_TO_THE_64 && size < TWO_TO_THE_64
    ensures ok <==> |bucket| <= maxEntries
    ensures ok ==> multiset(flushed) + multiset(left) == Values(bucket) && (|flushed| == size || left == [])
    ensures ok ==> Values(saved) == multiset(left) + Values(bucket - NewKeys(|flushed|, |flushed| + |left|))
  {
    hide Values, Keyed, Remaining, KeyOf, Closed, NewKeys;
    var buffer := new MemoryBuffer<E>(maxEntries);
    ok := buffer.Load(bucket);
    if !ok {
      flushed, left, saved := [], [], bucket;
      return;
    }
    LoadedSize(bucket, buffer.queue);
    flushed, left := FlushSome(buffer, size);
    Together(flushed, left);
    ClosedAgain(bucket, buffer.inFlight, left, |flushed|);
    saved := buffer.Close(bucket);
  }

  /** Read some entries and mark them all as flushed. */
  method FlushSome<E(!new)>(buffer: MemoryBuffer<E>, size: nat) returns (flushed: seq<E>, left: seq<E>)
    requires buffer.Valid() && buffer.inFlight == map[] && buffer.entryId == 0 && size < TWO_TO_THE_64
    modifies buffer
    ensures buffer.Valid() && buffer.inFlight == map[] && buffer.queue == left && buffer.entryId == |flushed|
    ensures old(buffer.queue) == flushed + left && (|flushed| == size || left == [])
  {
    hide Remaining, IdSet, Distinct;
    var ids;
    flushed, ids := buffer.Read(size);
    AllInFlight(flushed, ids);
    var done := buffer.MarkRange(ids, 0, |ids|);
    assert ids[0..|ids|] == ids;
    left := buffer.queue;
  }

  lemma Together<E>(a: seq<E>, b: seq<E>)
    ensures multiset(a + b) == multiset(a) + multiset(b)
  {}

  lemma ClosedAgain<E>(bucket: map<Key, E>, inFlight: map<nat, E>, left: seq<E>, last: nat)
    requires inFlight == map[] && last + |left| < TWO_TO_THE_64
    ensures Values(Closed(bucket, inFlight, left, last))
            == multiset(left) + Values(bucket - NewKeys(last, last + |left|))
  {
    hide Values, Keyed, Remaining, KeyOf, Closed, NewKeys;
    ValuesEmpty<nat, E>(inFlight);
    WrittenKeys(left, last);
    CloseSavesUnflushed(bucket, inFlight, left, last);
    var written := Keyed(Remaining(inFlight, left, last)).Keys;
    assert written == NewKeys(last, last + |left|);
    var unflushed := Values(inFlight) + multiset(left);
    assert unflushed == multiset(left);
    assert bucket - written == bucket - NewKeys(last, last + |left|);
  }

  lemma AllInFlight<E>(queue: seq<E>, ids: seq<nat>)
    requires |ids| == |queue| && forall i :: 0 <= i < |ids| ==> ids[i] == 1 + i
    ensures Distinct(ids) && (forall i :: 0 <= i < |ids| ==> ids[i] in Remaining(map[], queue, 0))
    ensures Remaining(map[], queue, 0) - IdSet(ids) == map[]
  {
    NumberedIds(queue, 0);
    forall id | id in Remaining(map[], queue, 0) ensures id in IdSet(ids) {
      assert ids[id - 1] == id;
    }
  }

  lemma LoadedSize<E>(bucket: map<Key, E>, all: seq<E>)
    requires multiset(all) == Values(bucket)
    ensures |all| == |bucket|
  {
    ValuesSize(bucket);
    assert |multiset(all)| == |all|;
  }

  /** If the bucket was left by a buffer with nothing in flight, as many entries are loaded
      once more as were flushed: the first ones of its queue. */
  lemma FlushedComeBack<E>(queue: seq<E>, n: nat)
    requires n <= |queue| < TWO_TO_THE_64
    ensures IdsBelow(Numbered(queue, 0), TWO_TO_THE_64)
    ensures Values(Keyed(Numbered(queue, 0)) - NewKeys(n, |queue|)) == multiset(queue[..n])
    decreases |queue|
  {
    hide KeyOf, Keyed, Values, NewKeys;
    NumberedIds(queue, 0);
    var all := Numbered(queue, 0);
    if n == |queue| {
      assert queue[..n] == queue;
      NoNewKeys(n);
      assert Keyed(all) - {} == Keyed(all);
      KeyedValues(all);
      NumberedValues(queue, 0);
    } else {
      var m := |queue| - 1;
      FlushedComeBack(queue[..m], n);
      NumberedIds(queue[..m], 0);
      assert queue[..m][..n] == queue[..n];
      assert all - {|queue|} == Numbered(queue[..m], 0);
      KeyedMinus(all, |queue|);
      NewKeysNext(n, m);
      MinusTwice(Keyed(all), KeyOf(|queue|), NewKeys(n, m));
    }
  }

  lemma NoNewKeys(n: nat)
    ensures NewKeys(n, n) == {}
  {}

  lemma NewKeysNext(last: nat, end: nat)
    requires last <= end
    ensures NewKeys(last, end + 1) == {KeyOf(end + 1)} + NewKeys(last, end)
  {}

  lemma MinusTwice<K, V>(m: map<K, V>, k: K, ks: set<K>)
    ensures m - ({k} + ks) == (m - {k}) - ks
  {}
}

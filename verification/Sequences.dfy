// Bytes, and searching and joining sequences as the Go standard library does it.
module Sequences {
  import opened Wrappers

  newtype Byte = x: int | 0 <= x < 256

  type Bytes = seq<Byte>

  predicate OccursAt<T(==)>(data: seq<T>, pattern: seq<T>, i: int) {
    0 <= i && i + |pattern| <= |data| && data[i..i + |pattern|] == pattern
  }

  predicate Contains<T(==)>(data: seq<T>, pattern: seq<T>) {
    exists i :: 0 <= i <= |data| && OccursAt(data, pattern, i)
  }

  /** `bytes.Index` and `strings.Index`: where `pattern` first occurs in `data`. */
  function IndexOf<T(==)>(data: seq<T>, pattern: seq<T>): (r: Option<nat>)
    ensures r.Some? ==> OccursAt(data, pattern, r.value)
    ensures r.Some? ==> forall j :: 0 <= j < r.value ==> !OccursAt(data, pattern, j)
    ensures r.None? ==> !Contains(data, pattern)
  {
    IndexFrom(data, pattern, 0)
  }

  function IndexFrom<T(==)>(data: seq<T>, pattern: seq<T>, from: nat): (r: Option<nat>)
    requires from <= |data|
    requires forall j :: 0 <= j < from ==> !OccursAt(data, pattern, j)
    ensures r.Some? ==> OccursAt(data, pattern, r.value)
    ensures r.Some? ==> forall j :: 0 <= j < r.value ==> !OccursAt(data, pattern, j)
    ensures r.None? ==> !Contains(data, pattern)
    decreases |data| - from
  {
    if OccursAt(data, pattern, from) then Some(from)
    else if from == |data| then None
    else IndexFrom(data, pattern, from + 1)
  }

  /** `bytes.TrimSuffix`. */
  function TrimSuffix<T(==)>(data: seq<T>, suffix: seq<T>): (r: seq<T>)
    ensures r == data || r + suffix == data
    ensures OccursAt(data, suffix, |data| - |suffix|) ==> r + suffix == data
  {
    if OccursAt(data, suffix, |data| - |suffix|) then data[..|data| - |suffix|] else data
  }

  /** Data that grows keeps its first occurrence. */
  lemma IndexOfGrownData<T>(d: seq<T>, x: seq<T>, pattern: seq<T>)
    requires IndexOf(d, pattern).Some?
    ensures IndexOf(d + x, pattern) == IndexOf(d, pattern)
  {
    var i, n := IndexOf(d, pattern).value, |pattern|;
    assert (d + x)[i..i + n] == d[i..i + n];
    assert OccursAt(d + x, pattern, i);
    forall j | 0 <= j < i ensures !OccursAt(d + x, pattern, j) {
      assert (d + x)[j..j + n] == d[j..j + n];
      assert !OccursAt(d, pattern, j);
    }
  }

  function Flatten<T>(parts: seq<seq<T>>): seq<T> {
    if parts == [] then [] else parts[0] + Flatten(parts[1..])
  }

  lemma {:induction false} FlattenConcat<T>(a: seq<seq<T>>, b: seq<seq<T>>)
    ensures Flatten(a + b) == Flatten(a) + Flatten(b)
  {
    if a == [] {
      assert a + b == b;
    } else {
      calc {
        Flatten(a + b);
        { assert (a + b)[0] == a[0] && (a + b)[1..] == a[1..] + b; }
        a[0] + Flatten(a[1..] + b);
        { FlattenConcat(a[1..], b); }
        a[0] + (Flatten(a[1..]) + Flatten(b));
        Flatten(a) + Flatten(b);
      }
    }
  }

  lemma Associative<T>(a: seq<T>, b: seq<T>, c: seq<T>)
    ensures a + (b + c) == (a + b) + c
  {}

  lemma SplitAt<T>(s: seq<T>, m: nat)
    requires m <= |s|
    ensures s == s[..m] + s[m..]
  {}

  /** Moving the first `m` of what is left over to what is done. */
  lemma MoveOver<T>(all: seq<T>, done: seq<T>, left: seq<T>, m: nat)
    requires all == done + left && m <= |left|
    ensures all == (done + left[..m]) + left[m..]
    ensures m == |left| ==> all == done + left[..m]
  {
    SplitAt(left, m);
    Associative(done, left[..m], left[m..]);
  }

  lemma MoveOne<T>(a: seq<T>, b: seq<T>)
    requires b != []
    ensures a + b == (a + [b[0]]) + b[1..]
  {}

  lemma OccursElement<T>(data: seq<T>, pattern: seq<T>, i: nat, k: nat)
    requires OccursAt(data, pattern, i) && k < |pattern|
    ensures data[i + k] == pattern[k]
  {
    assert data[i..i + |pattern|][k] == pattern[k];
  }

  /** Occurrences in a part of `data`. */
  lemma OccursInPart<T>(data: seq<T>, pattern: seq<T>, lo: nat, hi: nat, k: nat)
    requires lo <= hi <= |data|
    ensures OccursAt(data[lo..hi], pattern, k) <==> k + |pattern| <= hi - lo && OccursAt(data, pattern, lo + k)
  {
    if k + |pattern| <= hi - lo {
      var a, b := lo + k, lo + k + |pattern|;
      assert data[lo..hi][k..k + |pattern|] == data[a..b];
    }
  }
}

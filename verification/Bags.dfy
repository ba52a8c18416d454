// The multiset of the values of a map.
module Bags {

  ghost function Values<K, V>(m: map<K, V>): multiset<V>
    decreases |m|
  {
    if m == map[] then multiset{}
    else
      var k :| k in m;
      multiset{m[k]} + Values(m - {k})
  }

  lemma ValuesEmpty<K, V>(m: map<K, V>)
    requires m == map[]
    ensures Values(m) == multiset{}
  {}

  /** Any key may be taken out first. */
  lemma {:induction false} ValuesRemove<K, V>(m: map<K, V>, k: K)
    requires k in m
    ensures Values(m) == multiset{m[k]} + Values(m - {k})
    decreases |m|
  {
    var j :| j in m && Values(m) == multiset{m[j]} + Values(m - {j});
    if j != k {
      var rest := m - {j} - {k};
      assert rest == m - {k} - {j};
      calc {
        Values(m);
        multiset{m[j]} + Values(m - {j});
        { ValuesRemove(m - {j}, k); }
        multiset{m[j]} + (multiset{m[k]} + Values(rest));
        { Rearrange(multiset{m[j]}, multiset{m[k]}, Values(rest)); }
        multiset{m[k]} + (multiset{m[j]} + Values(rest));
        { ValuesRemove(m - {k}, j); }
        multiset{m[k]} + Values(m - {k});
      }
    }
  }

  lemma Rearrange<V>(a: multiset<V>, b: multiset<V>, c: multiset<V>)
    ensures a + (b + c) == b + (a + c)
  {}

  lemma ValuesAdd<K, V>(m: map<K, V>, k: K, v: V)
    requires k !in m
    ensures Values(m[k := v]) == Values(m) + multiset{v}
  {
    ValuesRemove(m[k := v], k);
    assert m[k := v] - {k} == m;
  }

  lemma UnionMinus<K, V>(a: map<K, V>, b: map<K, V>, k: K)
    requires a.Keys !! b.Keys && k in b
    ensures (a + b) - {k} == a + (b - {k}) && (a + b)[k] == b[k]
  {}

  lemma {:induction false} ValuesUnion<K, V>(a: map<K, V>, b: map<K, V>)
    requires a.Keys !! b.Keys
    ensures Values(a + b) == Values(a) + Values(b)
    decreases |b|
  {
    if b == map[] {
      assert a + b == a;
    } else {
      var k :| k in b;
      calc {
        Values(a + b);
        { ValuesRemove(a + b, k); UnionMinus(a, b, k); }
        multiset{b[k]} + Values(a + (b - {k}));
        { ValuesUnion(a, b - {k}); }
        multiset{b[k]} + (Values(a) + Values(b - {k}));
        { Rearrange(multiset{b[k]}, Values(a), Values(b - {k})); ValuesRemove(b, k); }
        Values(a) + Values(b);
      }
    }
  }

  lemma {:induction false} ValuesSize<K, V>(m: map<K, V>)
    ensures |Values(m)| == |m|
    decreases |m|
  {
    if m != map[] {
      var k :| k in m;
      ValuesRemove(m, k);
      ValuesSize(m - {k});
    }
  }

  /** The part of `m` under the keys in `ks`. */
  function Taken<K, V>(m: map<K, V>, ks: set<K>): map<K, V> {
    map k | k in ks && k in m :: m[k]
  }

  lemma ValuesSplit<K, V>(m: map<K, V>, ks: set<K>)
    ensures Values(m) == Values(m - ks) + Values(Taken(m, ks))
  {
    hide Values;
    assert m == (m - ks) + Taken(m, ks) by {
      assert m.Keys == ((m - ks) + Taken(m, ks)).Keys;
    }
    ValuesUnion(m - ks, Taken(m, ks));
  }

  lemma MinusOne<K, V>(a: map<K, V>, k: K, b: map<K, V>)
    requires b.Keys == a.Keys - {k} && forall j :: j in b ==> b[j] == a[j]
    ensures a - {k} == b
  {}

  lemma PlusOne<K, V>(a: map<K, V>, k: K)
    requires k in a
    ensures (a - {k})[k := a[k]] == a
  {}

  lemma AddsNothing<V>(a: multiset<V>, b: multiset<V>)
    ensures a + b == a <==> |b| == 0
  {
    assert |a + b| == |a| + |b|;
  }

  lemma UnionPlus<K, V>(a: map<K, V>, b: map<K, V>, k: K, v: V)
    ensures (a + b)[k := v] == a + b[k := v]
  {}

  lemma Overwritten<K, V>(a: map<K, V>, b: map<K, V>)
    ensures a + b == (a - b.Keys) + b
  {}

  lemma MinusMore<K, V>(m: map<K, V>, ks: set<K>, k: K)
    requires k in m && k !in ks
    ensures (m - ks) - {k} == m - (ks + {k})
    ensures |(m - ks) - {k}| == |m - ks| - 1
  {
    var rest := m - ks;
    assert (rest - {k}).Keys == rest.Keys - {k};
  }

  /** Writing `b` over `a` keeps what is not written again; nothing else is kept exactly
      when all of `a` is written again. */
  lemma ValuesOverwrite<K, V>(a: map<K, V>, b: map<K, V>)
    ensures Values(a + b) == Values(b) + Values(a - b.Keys)
    ensures Values(a + b) == Values(b) <==> a.Keys <= b.Keys
  {
    hide Values;
    var kept := a - b.Keys;
    Overwritten(a, b);
    ValuesUnion(kept, b);
    ValuesSize(kept);
    AddsNothing(Values(b), Values(kept));
    assert kept.Keys == a.Keys - b.Keys;
    assert |kept| == 0 <==> a.Keys <= b.Keys;
  }

  lemma OneLess<V>(a: multiset<V>, v: V, b: multiset<V>)
    ensures (a + multiset{v}) + b == a + (multiset{v} + b)
  {}
}
/** ECMAScript's `Map`: entries in insertion order, one per key; setting a present key keeps its place. */
module OrderedMaps {
  import opened Wrappers

  type OrderedMap<K(==), V> = seq<(K, V)>

  function KeysOf<K, V>(m: OrderedMap<K, V>): (ks: seq<K>)
    ensures |ks| == |m| && forall k :: 0 <= k < |m| ==> ks[k] == m[k].0
  {
    seq(|m|, k requires 0 <= k < |m| => m[k].0)
  }

  /** No key has two entries. */
  predicate Functional<K(==), V>(m: OrderedMap<K, V>) { forall j, k :: 0 <= j < k < |m| ==> m[j].0 != m[k].0 }

  function Get<K(==), V>(m: OrderedMap<K, V>, key: K): Option<V> {
    if m == [] then None else if m[0].0 == key then Some(m[0].1) else Get(m[1..], key)
  }

  function Put<K(==), V>(m: OrderedMap<K, V>, key: K, value: V): OrderedMap<K, V> {
    if m == [] then [(key, value)]
    else if m[0].0 == key then [(key, value)] + m[1..]
    else [m[0]] + Put(m[1..], key, value)
  }

  function Delete<K(==), V>(m: OrderedMap<K, V>, key: K): OrderedMap<K, V> {
    if m == [] then [] else if m[0].0 == key then m[1..] else [m[0]] + Delete(m[1..], key)
  }

  lemma KeysCons<K, V>(m: OrderedMap<K, V>)
    requires m != []
    ensures KeysOf(m) == [m[0].0] + KeysOf(m[1..])
  {
  }

  lemma {:induction false} PutNew<K, V>(m: OrderedMap<K, V>, key: K, value: V)
    requires key !in KeysOf(m)
    ensures Put(m, key, value) == m + [(key, value)]
  {
    if m != [] {
      KeysCons(m);
      PutNew(m[1..], key, value);
      assert m == [m[0]] + m[1..];
    }
  }

  lemma {:induction false} GetAt<K, V>(m: OrderedMap<K, V>, k: nat)
    requires Functional(m) && k < |m|
    ensures Get(m, m[k].0) == Some(m[k].1)
  {
    if k > 0 { GetAt(m[1..], k - 1); }
  }

  lemma {:induction false} GetAbsent<K, V>(m: OrderedMap<K, V>, key: K)
    ensures Get(m, key) == None <==> key !in KeysOf(m)
  {
    if m != [] {
      KeysCons(m);
      GetAbsent(m[1..], key);
    }
  }

  lemma {:induction false} GetFound<K, V>(m: OrderedMap<K, V>, key: K) returns (k: nat)
    requires Get(m, key).Some?
    ensures k < |m| && m[k] == (key, Get(m, key).value)
  {
    if m[0].0 == key { return 0; }
    var j := GetFound(m[1..], key);
    k := j + 1;
  }

  /** Deleting a present key takes one entry out and leaves the order of the rest. */
  lemma {:induction false} DeletePresent<K, V>(m: OrderedMap<K, V>, key: K) returns (k: nat)
    requires Get(m, key).Some?
    ensures k < |m| && m[k] == (key, Get(m, key).value) && Delete(m, key) == m[..k] + m[k + 1..]
  {
    if m[0].0 == key { return 0; }
    var j := DeletePresent(m[1..], key);
    k := j + 1;
    assert m[..k] == [m[0]] + m[1..][..j];
    assert m[1..][j + 1..] == m[k + 1..];
  }

  lemma {:induction false} DeleteAbsent<K, V>(m: OrderedMap<K, V>, key: K)
    requires Get(m, key).None?
    ensures Delete(m, key) == m
  {
    if m != [] {
      DeleteAbsent(m[1..], key);
      assert m == [m[0]] + m[1..];
    }
  }

  /** After a deletion the key is gone and every other key is as it was. */
  lemma {:induction false} GetDelete<K, V>(m: OrderedMap<K, V>, key: K, other: K)
    requires Functional(m)
    ensures Functional(Delete(m, key))
    ensures Get(Delete(m, key), other) == if other == key then None else Get(m, other)
    ensures forall e :: e in Delete(m, key) ==> e in m
  {
    if m != [] {
      GetDelete(m[1..], key, other);
      if m[0].0 == key {
        GetAbsent(m[1..], key);
      } else {
        var rest := Delete(m[1..], key);
        assert Delete(m, key) == [m[0]] + rest;
        forall k | 0 <= k < |rest| ensures rest[k].0 != m[0].0 { assert rest[k] in m[1..]; }
      }
    }
  }

  lemma {:induction false} GetAppend<K, V>(m: OrderedMap<K, V>, key: K, value: V, other: K)
    ensures Get(m + [(key, value)], other) == if Get(m, other).Some? then Get(m, other) else if other == key then Some(value) else None
  {
    if m != [] {
      assert (m + [(key, value)])[1..] == m[1..] + [(key, value)];
      GetAppend(m[1..], key, value, other);
    }
  }
}

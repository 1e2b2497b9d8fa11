/** A JavaScript `Map`: a keyed collection that remembers the order in which
    keys were first set. Setting an existing key replaces its value and keeps
    its position; deleting a key drops it from the order. */
module OrderedMaps {
  import opened Wrappers

  /** `keys` lists every key once, in first-insertion order; `items` holds
      the value stored under each key. */
  datatype OrderedMap<K(!new), V> = OrderedMap(keys: seq<K>, items: map<K, V>) {

    ghost predicate Valid() {
      && (forall i, j :: 0 <= i < j < |keys| ==> keys[i] != keys[j])
      && (forall k :: k in items <==> k in keys)
    }

    /** `map.get(k)`: absent, not an error, for an unknown key. */
    function Get(k: K): Option<V> {
      if k in items then Some(items[k]) else None
    }

    /** `map.set(k, v)`. */
    function Put(k: K, v: V): (m: OrderedMap<K, V>)
      requires Valid()
      ensures m.Valid()
      ensures m.Get(k) == Some(v)
      ensures forall k' :: k' != k ==> m.Get(k') == Get(k')
      ensures k in keys ==> m.keys == keys
      ensures k !in keys ==> m.keys == keys + [k]
    {
      OrderedMap(if k in items then keys else keys + [k], items[k := v])
    }

    /** `map.delete(k)`: the map without `k`, and whether `k` was there. */
    function Remove(k: K): (r: (OrderedMap<K, V>, bool))
      requires Valid()
      ensures r.0.Valid()
      ensures r.1 <==> Get(k).Some?
      ensures r.0.Get(k) == None
      ensures forall k' :: k' != k ==> r.0.Get(k') == Get(k')
      ensures r.0.keys == Without(keys, k)
      ensures !r.1 ==> r.0 == this
    {
      WithoutAbsent(keys, k);
      WithoutKeeps(keys, k);
      (OrderedMap(Without(keys, k), items - {k}), k in items)
    }

    /** `Array.from(map.values())`: the values in key order. */
    function Values(): (vs: seq<V>)
      requires Valid()
      ensures |vs| == |keys|
      ensures forall i :: 0 <= i < |keys| ==> vs[i] == items[keys[i]]
    {
      ValuesOf(keys, items)
    }
  }

  /** `new Map()` and `map.clear()`. */
  function Empty<K(!new), V>(): (m: OrderedMap<K, V>)
    ensures m.Valid()
    ensures forall k :: m.Get(k) == None
  {
    OrderedMap([], map[])
  }

  function ValuesOf<K, V>(ks: seq<K>, items: map<K, V>): (vs: seq<V>)
    requires forall k :: k in ks ==> k in items
    ensures |vs| == |ks|
    ensures forall i :: 0 <= i < |ks| ==> vs[i] == items[ks[i]]
    decreases |ks|
  {
    if |ks| == 0 then [] else [items[ks[0]]] + ValuesOf(ks[1..], items)
  }

  /** `ks` with every occurrence of `k` dropped and the rest in order. */
  function Without<K(==)>(ks: seq<K>, k: K): seq<K>
    decreases |ks|
  {
    if |ks| == 0 then []
    else if ks[0] == k then Without(ks[1..], k)
    else [ks[0]] + Without(ks[1..], k)
  }

  lemma {:induction false} WithoutAbsent<K>(ks: seq<K>, k: K)
    ensures k !in ks ==> Without(ks, k) == ks
    decreases |ks|
  {
    if |ks| > 0 {
      WithoutAbsent(ks[1..], k);
    }
  }

  /** Dropping a key from a duplicate-free list leaves a duplicate-free list
      of exactly the other keys. */
  lemma {:induction false} WithoutKeeps<K>(ks: seq<K>, k: K)
    requires forall i, j :: 0 <= i < j < |ks| ==> ks[i] != ks[j]
    ensures forall x :: x in Without(ks, k) <==> x in ks && x != k
    ensures forall i, j :: 0 <= i < j < |Without(ks, k)| ==> Without(ks, k)[i] != Without(ks, k)[j]
    decreases |ks|
  {
    if |ks| > 0 {
      WithoutKeeps(ks[1..], k);
      var rest := Without(ks[1..], k);
      if ks[0] != k {
        assert ks[0] !in ks[1..];
        assert Without(ks, k) == [ks[0]] + rest;
        forall i, j | 0 <= i < j < |[ks[0]] + rest|
          ensures ([ks[0]] + rest)[i] != ([ks[0]] + rest)[j]
        {
          if i == 0 {
            assert ([ks[0]] + rest)[j] == rest[j - 1];
            assert rest[j - 1] in rest;
          }
        }
      }
    }
  }
}

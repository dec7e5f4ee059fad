/** An insertion-ordered map: the maps the enrichment code
    fills with `put` and later iterates. Keys are listed in the order of
    their first insertion; a later `put` on a present key replaces the value
    and keeps the key's position. */
module OrderedMap {
  import opened Wrappers

  datatype Dict<K, V> = Dict(keys: seq<K>, values: map<K, V>)

  /** The key list enumerates the stored keys, each once. */
  predicate Valid<K(==,!new), V>(d: Dict<K, V>) {
    && (forall i, j :: 0 <= i < j < |d.keys| ==> d.keys[i] != d.keys[j])
    && (forall k :: k in d.values ==> k in d.keys)
    && (forall i :: 0 <= i < |d.keys| ==> d.keys[i] in d.values)
  }

  function Empty<K(==,!new), V>(): (r: Dict<K, V>)
    ensures Valid(r) && r.keys == []
  {
    Dict([], map[])
  }

  function Size<K(==,!new), V>(d: Dict<K, V>): nat {
    |d.keys|
  }

  /** A map is empty exactly when its key list is. */
  lemma SizeZero<K(!new), V>(d: Dict<K, V>)
    requires Valid(d)
    ensures Size(d) == 0 <==> d == Empty()
  {
    if Size(d) == 0 {
      assert forall k :: k !in d.values;
      assert d.values == map[];
    }
  }

  predicate HasKey<K(==,!new), V>(d: Dict<K, V>, k: K) {
    k in d.values
  }

  function Get<K(==,!new), V>(d: Dict<K, V>, k: K): Option<V> {
    if k in d.values then Some(d.values[k]) else None
  }

  /** `put`. */
  function Put<K(==,!new), V>(d: Dict<K, V>, k: K, v: V): (r: Dict<K, V>)
    requires Valid(d)
    ensures Valid(r)
    ensures Get(r, k) == Some(v)
    ensures forall k' :: k' != k ==> Get(r, k') == Get(d, k')
    ensures r.keys == if HasKey(d, k) then d.keys else d.keys + [k]
  {
    Dict(if k in d.values then d.keys else d.keys + [k], d.values[k := v])
  }

  /** The `if (!containsKey(k)) put(k, v)` idiom: the first value stored
      under a key wins. */
  function PutIfAbsent<K(==,!new), V>(d: Dict<K, V>, k: K, v: V): (r: Dict<K, V>)
    requires Valid(d)
    ensures Valid(r)
    ensures Get(r, k) == if HasKey(d, k) then Get(d, k) else Some(v)
    ensures forall k' :: k' != k ==> Get(r, k') == Get(d, k')
    ensures HasKey(d, k) ==> r == d
  {
    if HasKey(d, k) then d else Put(d, k, v)
  }

  /** The entries in iteration order. */
  function Values<K(==,!new), V>(d: Dict<K, V>): (r: seq<V>)
    requires Valid(d)
    ensures |r| == |d.keys|
    ensures forall i :: 0 <= i < |r| ==> Get(d, d.keys[i]) == Some(r[i])
  {
    ValuesOf(d.keys, d.values)
  }

  function ValuesOf<K(==,!new), V>(keys: seq<K>, values: map<K, V>): (r: seq<V>)
    requires forall i :: 0 <= i < |keys| ==> keys[i] in values
    ensures |r| == |keys|
    ensures forall i :: 0 <= i < |r| ==> r[i] == values[keys[i]]
  {
    if |keys| == 0 then [] else [values[keys[0]]] + ValuesOf(keys[1..], values)
  }
}

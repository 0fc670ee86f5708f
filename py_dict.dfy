/**
 * Python dicts as the scaling scripts use them: insertion-ordered, with
 * `d[k] = v` appending a new key and overwriting an existing one in place.
 */
module PyDict {
  /** A dict: its keys in insertion order, and what each key maps to. */
  datatype Dict<K(==,!new), V> = Dict(keys: seq<K>, at: map<K, V>)

  predicate Distinct<K(==,!new)>(keys: seq<K>) {
    forall i, j :: 0 <= i < j < |keys| ==> keys[i] != keys[j]
  }

  /** Each key is listed once, and the listed keys are the mapped ones. */
  predicate WellFormed<K(==,!new), V>(d: Dict<K, V>) {
    Distinct(d.keys) && (forall k :: k in d.at ==> k in d.keys) && (forall i :: 0 <= i < |d.keys| ==> d.keys[i] in d.at)
  }

  function Empty<K(==,!new), V>(): (d: Dict<K, V>)
    ensures WellFormed(d) && d.keys == []
  {
    Dict([], map[])
  }

  /**
   * `d[k] = v`: a new key goes to the end of the key order, an existing
   * key keeps its place and only its value changes.
   */
  function Put<K(==,!new), V>(d: Dict<K, V>, k: K, v: V): (r: Dict<K, V>)
    requires WellFormed(d)
    ensures WellFormed(r)
    ensures k in r.at && r.at[k] == v
    ensures forall x :: x != k ==> (x in r.at <==> x in d.at) && (x in d.at ==> r.at[x] == d.at[x])
    ensures k in d.at ==> r.keys == d.keys
    ensures k !in d.at ==> r.keys == d.keys + [k]
  {
    if k in d.at then Dict(d.keys, d.at[k := v]) else Dict(d.keys + [k], d.at[k := v])
  }

  /** `d.values()`, in key order. */
  function Values<K(==,!new), V>(d: Dict<K, V>): (vs: seq<V>)
    requires WellFormed(d)
    ensures |vs| == |d.keys|
    ensures forall i :: 0 <= i < |d.keys| ==> vs[i] == d.at[d.keys[i]]
  {
    seq(|d.keys|, i requires 0 <= i < |d.keys| => d.at[d.keys[i]])
  }
}

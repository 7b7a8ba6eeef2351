/** Python's insertion-ordered `dict`, as far as the ledger's handlers use it:
    assigning to a key that is already present keeps the key's position and
    replaces its value; a new key goes to the end of the iteration order. */
module OrderedDict {

  datatype Dict<K(==), V> = Dict(keys: seq<K>, entries: map<K, V>)

  /** The iteration order lists every key of the map exactly once. */
  ghost predicate Valid<K, V>(d: Dict<K, V>) {
    && (forall i, j :: 0 <= i < j < |d.keys| ==> d.keys[i] != d.keys[j])
    && d.entries.Keys == set k | k in d.keys
  }

  function Empty<K(==), V>(): (d: Dict<K, V>)
    ensures Valid(d)
    ensures d.entries == map[]
  {
    Dict([], map[])
  }

  /** `d[k] = v`. */
  function Put<K(==), V>(d: Dict<K, V>, k: K, v: V): (r: Dict<K, V>)
    requires Valid(d)
    ensures Valid(r)
    ensures r.entries == d.entries[k := v]
    ensures k in d.entries ==> r.keys == d.keys
    ensures k !in d.entries ==> r.keys == d.keys + [k]
  {
    if k in d.entries then Dict(d.keys, d.entries[k := v])
    else Dict(d.keys + [k], d.entries[k := v])
  }
}

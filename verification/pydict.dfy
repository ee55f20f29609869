/** The part of Python's built-in `dict` the terminology utilities rely on:
    a finite map that also remembers the order in which its keys were first
    inserted, which is the order `keys()` and `values()` iterate in. */
module PyDict {
  import opened Sequences

  /** Keys in insertion order, together with the key/value association. */
  datatype DictRep<K, V> = DictRep(keys: seq<K>, entries: map<K, V>)

  /** No key is listed twice, and the listed keys are exactly the map's keys. */
  ghost predicate Valid<K, V>(d: DictRep<K, V>) {
    && Distinct(d.keys)
    && d.entries.Keys == (set i | 0 <= i < |d.keys| :: d.keys[i])
  }

  type Dict<K, V> = d: DictRep<K, V> | Valid(d) witness DictRep([], map[])

  /** The empty dictionary (Python's `{}`). */
  function Empty<K, V>(): (d: Dict<K, V>)
    ensures d.entries == map[]
  {
    DictRep([], map[])
  }

  /** `d[k] = v`: an existing key keeps its position and gets the new value;
      a new key is placed after every key already present. */
  function Set<K, V>(d: Dict<K, V>, k: K, v: V): (r: Dict<K, V>)
    ensures r.entries == d.entries[k := v]
    ensures k in d.entries ==> r.keys == d.keys
    ensures k !in d.entries ==> r.keys == d.keys + [k]
  {
    if k in d.entries then DictRep(d.keys, d.entries[k := v])
    else
      var keys := d.keys + [k];
      assert (set i | 0 <= i < |keys| :: keys[i])
          == (set i | 0 <= i < |d.keys| :: d.keys[i]) + {k} by {
        assert forall i :: 0 <= i < |d.keys| ==> keys[i] == d.keys[i];
        assert keys[|d.keys|] == k;
      }
      DictRep(keys, d.entries[k := v])
  }

  /** The values, in key insertion order (Python's `list(d.values())`). */
  function Values<K, V>(d: Dict<K, V>): (vs: seq<V>)
    ensures |vs| == |d.keys|
    ensures forall i :: 0 <= i < |d.keys| ==> vs[i] == d.entries[d.keys[i]]
  {
    seq(|d.keys|, i requires 0 <= i < |d.keys| => d.entries[d.keys[i]])
  }

  /** Python truthiness: `not d` holds exactly when `d` has no entries. */
  predicate IsEmpty<K, V>(d: Dict<K, V>) {
    |d.keys| == 0
  }

  lemma EmptyIffNoEntries<K, V>(d: Dict<K, V>)
    ensures IsEmpty(d) <==> d.entries == map[]
  {
    if !IsEmpty(d) {
      assert d.keys[0] in d.entries;
    }
  }
}

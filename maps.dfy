// Maps.merge: collect the entries of two maps into a new one; a key present
// in both is resolved by the merge function, or refused by merge().

module Maps {
  import opened Wrappers

  /** The UnsupportedOperationException that merge() raises on a shared key. */
  datatype Failure = MergeNotSupported

  /** merge(mergeFunction): left entries, then right ones, into a fresh map. */
  function Merge<K, V>(f: (V, V) -> V, l: map<K, V>, r: map<K, V>): (m: map<K, V>)
    ensures m.Keys == l.Keys + r.Keys
    ensures forall k :: k in l && k !in r ==> m[k] == l[k]
    ensures forall k :: k in r && k !in l ==> m[k] == r[k]
    ensures forall k :: k in l && k in r ==> m[k] == f(l[k], r[k])
  {
    map k | k in l.Keys + r.Keys ::
      if k in l && k in r then f(l[k], r[k]) else if k in l then l[k] else r[k]
  }

  /** merge(): the merge function throws, so any shared key is a failure. */
  function MergeStrict<K, V>(l: map<K, V>, r: map<K, V>): (res: Result<map<K, V>, Failure>)
    ensures res.Err? <==> exists k :: k in l && k in r
    ensures res.Ok? ==> res.value == l + r
  {
    if exists k :: k in l && k in r then Err(MergeNotSupported)
    else Ok(Merge((x: V, y: V) => x, l, r))
  }

  /** Without shared keys merge() is the union of the two maps. */
  lemma MergeDisjoint<K, V>(f: (V, V) -> V, l: map<K, V>, r: map<K, V>)
    requires l.Keys !! r.Keys
    ensures Merge(f, l, r) == l + r
  {
  }
}

/**
 * A JavaScript `Map` as the stores use it: a list of key/value entries in
 * insertion order. `set` on a present key replaces the value in place;
 * on a new key it appends an entry. Iteration (`entries()`, `values()`)
 * follows the list.
 */
module OrderedMaps {
  import opened Wrappers

  type OrderedMap<K, V> = seq<(K, V)>

  function Keys<K, V>(m: OrderedMap<K, V>): (r: seq<K>)
    ensures |r| == |m|
    ensures forall i :: 0 <= i < |m| ==> r[i] == m[i].0
  {
    if |m| == 0 then [] else [m[0].0] + Keys(m[1..])
  }

  function Values<K, V>(m: OrderedMap<K, V>): (r: seq<V>)
    ensures |r| == |m|
    ensures forall i :: 0 <= i < |m| ==> r[i] == m[i].1
  {
    if |m| == 0 then [] else [m[0].1] + Values(m[1..])
  }

  /**
   * No key occurs twice: every map `Put` builds, and every list of entries
   * keyed by post id whose posts have unique ids.
   */
  predicate UniqueKeys<K(==), V>(m: OrderedMap<K, V>)
  {
    forall i, j :: 0 <= i < j < |m| ==> m[i].0 != m[j].0
  }

  /** The position of the entry for `k`. */
  function Find<K(==), V>(m: OrderedMap<K, V>, k: K): (r: Option<nat>)
    ensures r.None? <==> forall i :: 0 <= i < |m| ==> m[i].0 != k
    ensures r.Some? ==> r.value < |m| && m[r.value].0 == k && forall j :: 0 <= j < r.value ==> m[j].0 != k
  {
    if |m| == 0 then None
    else if m[0].0 == k then Some(0)
    else
      match Find(m[1..], k)
      case None => None
      case Some(i) => Some(i + 1)
  }

  /** `Find` depends on the keys only, so two maps with the same keys agree on it. */
  lemma FindByKeys<K, V>(a: OrderedMap<K, V>, b: OrderedMap<K, V>, k: K)
    requires |a| == |b| && forall i :: 0 <= i < |a| ==> a[i].0 == b[i].0
    ensures Find(a, k) == Find(b, k)
  {
  }

  /** Appending an entry can only make a key that was missing findable, at the end. */
  lemma {:induction false} FindAppend<K, V>(m: OrderedMap<K, V>, e: (K, V), k: K)
    ensures Find(m + [e], k) == (if Find(m, k).Some? then Find(m, k) else if e.0 == k then Some(|m|) else None)
    decreases |m|
  {
    if |m| > 0 && m[0].0 != k {
      assert (m + [e])[1..] == m[1..] + [e];
      FindAppend(m[1..], e, k);
    }
  }

  /** `get`: the value of the entry for `k`. */
  function Get<K(==), V>(m: OrderedMap<K, V>, k: K): (r: Option<V>)
    ensures r.None? <==> forall i :: 0 <= i < |m| ==> m[i].0 != k
    ensures r.Some? ==> exists i :: 0 <= i < |m| && m[i] == (k, r.value)
  {
    match Find(m, k)
    case None => None
    case Some(i) => Some(m[i].1)
  }

  /** In a map without duplicate keys, `Get` finds exactly the entry of the key. */
  lemma GetEntry<K, V>(m: OrderedMap<K, V>, i: nat)
    requires UniqueKeys(m) && i < |m|
    ensures Get(m, m[i].0) == Some(m[i].1)
  {
  }

  /** `set`: replace the value of `k` in place, or append a new entry. */
  function Put<K(==), V>(m: OrderedMap<K, V>, k: K, v: V): (r: OrderedMap<K, V>)
  {
    match Find(m, k)
    case None => m + [(k, v)]
    case Some(i) => m[i := (k, v)]
  }

  /** `set` keeps the keys distinct. */
  lemma PutUniqueKeys<K, V>(m: OrderedMap<K, V>, k: K, v: V)
    requires UniqueKeys(m)
    ensures UniqueKeys(Put(m, k, v))
  {
  }

  /** `set` makes `get` return the new value, and leaves the key order alone. */
  lemma {:induction false} PutGet<K, V>(m: OrderedMap<K, V>, k: K, v: V)
    ensures Get(Put(m, k, v), k) == Some(v)
  {
    match Find(m, k)
    case None =>
      FindAppend(m, (k, v), k);
    case Some(i) =>
      FindByKeys(m, m[i := (k, v)], k);
  }

  /** A new key goes to the end of the iteration order; a present key keeps its place. */
  lemma PutKeys<K, V>(m: OrderedMap<K, V>, k: K, v: V)
    ensures Get(m, k).None? ==> Keys(Put(m, k, v)) == Keys(m) + [k]
    ensures Get(m, k).Some? ==> Keys(Put(m, k, v)) == Keys(m)
  {
  }

  /** `set` leaves the other keys' values alone. */
  lemma {:induction false} PutOther<K, V>(m: OrderedMap<K, V>, k: K, v: V, k': K)
    requires k' != k
    ensures Get(Put(m, k, v), k') == Get(m, k')
  {
    match Find(m, k)
    case None =>
      FindAppend(m, (k, v), k');
    case Some(i) =>
      FindByKeys(m, Put(m, k, v), k');
  }
}

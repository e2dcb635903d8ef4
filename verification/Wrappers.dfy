/** Optional values and failing results, shared by every component. */
module Wrappers {

  datatype Option<+T> = None | Some(value: T)

  datatype Result<+T, +E> = Ok(value: T) | Err(error: E)

  predicate Distinct<T(==)>(s: seq<T>) {
    forall i, j :: 0 <= i < j < |s| ==> s[i] != s[j]
  }

  function Lookup<K, V>(m: map<K, V>, k: K): Option<V> { if k in m then Some(m[k]) else None }

  /** The maps differ at `k` at most. */
  ghost predicate SameElsewhere<K(!new), V>(m: map<K, V>, m': map<K, V>, k: K) {
    forall other :: other != k ==> Lookup(m, other) == Lookup(m', other)
  }
}

/** Optional values: `undefined` / `null` on the TypeScript side. */
module Wrappers {

  datatype Option<+T> = None | Some(value: T)

  /** The result of a lookup, as `Map.prototype.get` gives it. */
  function Lookup<K, V>(m: map<K, V>, k: K): (r: Option<V>)
    ensures r.Some? <==> k in m
    ensures r.Some? ==> r.value == m[k]
  {
    if k in m then Some(m[k]) else None
  }
}

/** Optional values: JavaScript's null/undefined on one side, a present value on the other. */
module Wrappers {

  datatype Option<+T> = None | Some(value: T)

  /** Looks up a key of a record; a missing key reads as undefined. */
  function Get<K, V>(m: map<K, V>, k: K): (r: Option<V>)
    ensures r.Some? <==> k in m
    ensures r.Some? ==> r.value == m[k]
  {
    if k in m then Some(m[k]) else None
  }
}

/** Option, for the places where the PHP code yields a value or null. */
module Wrappers {

  datatype Option<+T> = None | Some(value: T)

  /** Lookup by key, as an ORM `find` that returns null for a missing row. */
  function Find<K, V>(m: map<K, V>, k: K): (r: Option<V>)
    ensures r.Some? <==> k in m
    ensures r.Some? ==> r.value == m[k]
  {
    if k in m then Some(m[k]) else None
  }
}

/** The optional values used throughout the model (Python's `None`). */
module Wrappers {

  datatype Option<+T> = None | Some(value: T)

  /** `m.get(k)` of a Python dictionary. */
  function Find<K, V>(m: map<K, V>, k: K): Option<V> {
    if k in m then Some(m[k]) else None
  }
}

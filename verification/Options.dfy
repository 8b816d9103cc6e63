/** Optional values: JavaScript's `undefined`, an absent map entry, Rust's `Option`. */
module Options {

  datatype Option<+T> = None | Some(value: T)

  /** A map lookup that reports absence. */
  function Lookup<K, V>(m: map<K, V>, key: K): Option<V> {
    if key in m then Some(m[key]) else None
  }
}

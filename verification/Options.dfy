/** Values that may be missing. */
module Options {

  datatype Option<+T> = None | Some(value: T)

  /** What a map says, or what holds where it says nothing. */
  function Lookup<K, V>(m: map<K, V>, k: K, unset: V): V { if k in m then m[k] else unset }

  function AmountAt<K>(m: map<K, nat>, k: K): nat { Lookup(m, k, 0) }
}

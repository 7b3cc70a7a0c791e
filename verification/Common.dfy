/** Value types shared by the other modules. */
module Common {

  datatype Option<+T> = None | Some(value: T)

  /** An operation that may fail. The reasons for a failure are not modelled. */
  datatype Result<+T> = Ok(value: T) | Err

  newtype byte = x: int | 0 <= x < 256

  function Lookup<K, V>(m: map<K, V>, key: K): Option<V> {
    if key in m then Some(m[key]) else None
  }

  function Min(a: int, b: int): int {
    if a <= b then a else b
  }

  function Max(a: int, b: int): int {
    if a >= b then a else b
  }
}

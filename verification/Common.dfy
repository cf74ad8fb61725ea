/** Shared vocabulary: optional values, bytes and a total map lookup. */
module Common {

  datatype Option<+T> = None | Some(value: T)

  /** One octet, as a number. */
  type byte = b: int | 0 <= b < 256

  /** What marks an environment variable as a reference. */
  const VAULT_PREFIX := "vault:"

  function Lookup<K, V>(m: map<K, V>, k: K): Option<V> {
    if k in m then Some(m[k]) else None
  }
}

/** Outcome datatypes standing in for Java's null returns and exceptions. */
module Results {

  /** A value that may be absent; `None` plays the part of Java's `null`. */
  datatype Option<+T> = None | Some(value: T)

  /** The outcome of a step that may throw. Every exception the gateway
      swallows or rethrows as "Unsupported Gateway" collapses into `Failed`. */
  datatype Result<+T> = Ok(value: T) | Failed

  /** The outcome of a public port operation: either it returned a value, or
      it threw `IllegalArgumentException` because the port was out of range. */
  datatype Checked<+T> = Returned(value: T) | IllegalArgument

  /** `Map.get`: the entry for `k`, or `None` where Java returns `null`. */
  function Lookup<K, V>(m: map<K, V>, k: K): (r: Option<V>)
    ensures r.Some? <==> k in m
    ensures r.Some? ==> r.value == m[k]
  {
    if k in m then Some(m[k]) else None
  }
}

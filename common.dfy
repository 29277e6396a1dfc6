/** Failure-compatible wrappers shared by every module, and the exceptions the services throw. */
module Common {

  datatype Option<T> = None | Some(value: T) {
    /** The value, or `default` when absent (JavaScript's `x ?? default`, `x || default` for objects). */
    function GetOr(default: T): T {
      if Some? then value else default
    }
  }

  /**
   * The exceptions a NestJS service throws, each with the message it is constructed with.
   * `ConstraintViolation` is the database refusing a write that breaks a unique column; its
   * message is the driver's.
   */
  datatype Failure =
    | NotFound(message: string)
    | Forbidden(message: string)
    | Conflict(message: string)
    | ConstraintViolation(message: string)

  /** A service call that either resolves with a value or rejects with a failure. */
  datatype Result<T> = Ok(value: T) | Err(error: Failure)

  /** JavaScript's `Map.get` / indexing an object: absent keys give `None`. */
  function Get<K, V>(m: map<K, V>, k: K): (r: Option<V>)
    ensures r.Some? <==> k in m
    ensures r.Some? ==> r.value == m[k]
  {
    if k in m then Some(m[k]) else None
  }
}

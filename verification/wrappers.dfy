/** Failure-compatible wrappers shared by the store and the cache. */
module Wrappers {

  /** A JavaScript `V | undefined`: `Some(v)` is a stored value, `None` is `undefined`,
      the marker for "no record". */
  datatype Option<+T> = None | Some(value: T)

  /** A settled promise: fulfilled with a value or rejected with an error. */
  datatype Result<+T, +E> = Ok(value: T) | Err(error: E)
}

/** Option and Result, the two failure-carrying shapes the model uses in
    place of `null` and of thrown exceptions. */
module Wrappers {

  /** A value that may be absent: `null`/`undefined` in TypeScript, `None` in Python. */
  datatype Option<+T> = None | Some(value: T) {

    /** The wrapped value, or `default` when absent. */
    function GetOr(default: T): T {
      match this
      case Some(v) => v
      case None => default
    }
  }

  /** The outcome of an operation that may throw: `Ok` carries the value,
      `Err` the error that would have been raised. */
  datatype Result<+T, +E> = Ok(value: T) | Err(error: E)
}

/** Option and Result, the two failure-carrying shapes the model returns. */
module Wrappers {

  datatype Option<T> = None | Some(value: T) {

    /** The value, or `default` when absent (Python's `x or default`, `x if x is not None else default`). */
    function GetOr(default: T): T {
      match this
      case Some(v) => v
      case None => default
    }
  }

  /** An operation that either returns a value or raises an HTTP error. */
  datatype Result<T, E> = Success(value: T) | Failure(error: E)
}

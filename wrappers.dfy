/**
 * The two failure-carrying datatypes of the model: `Option` for a regular
 * expression that may not match and for Python's `None`, and `Result` for a
 * call that may raise instead of returning.
 */
module Wrappers {

  datatype Option<+T> = None | Some(value: T) {
    /** The value, or `default` when there is none (Python's `x or default`). */
    function GetOr(default: T): T {
      match this
      case Some(v) => v
      case None => default
    }
  }

  datatype Result<+R, +E> = Success(value: R) | Failure(error: E)
}

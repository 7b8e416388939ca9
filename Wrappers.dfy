/** Option and Result values used for absent inputs and error paths. */
module Wrappers {

  /** A value that may be absent (Python `None`, JavaScript `null`/`undefined`/`NaN`). */
  datatype Option<+T> = None | Some(value: T) {
    function GetOr(default: T): T {
      match this
      case Some(v) => v
      case None => default
    }
  }

  /** The outcome of an operation that either succeeds or raises an error. */
  datatype Result<+R, +E> = Success(value: R) | Failure(error: E)
}

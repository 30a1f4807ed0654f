/** Option and Result values used for the source's nullable values and error returns. */
module Wrappers {

  /** A value that may be absent (Python's None, JavaScript's null or undefined). */
  datatype Option<+T> = None | Some(value: T) {
    /** The held value, or `default` when there is none (Python's `x or default`, `dict.get(k, default)`). */
    function GetOr(default: T): T {
      match this
      case Some(v) => v
      case None => default
    }
  }

  /** The outcome of an operation that either yields a value or fails with an error. */
  datatype Result<+T, +E> = Success(value: T) | Failure(error: E)
}

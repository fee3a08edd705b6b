/** Failure-compatible wrappers shared by the whole model. */
module Wrappers {

  /** An optional value: JavaScript's `undefined` (or a SQL NULL) versus a present value. */
  datatype Option<+T> = None | Some(value: T) {

    /** The value when present, `default` otherwise. */
    function GetOr(default: T): T {
      match this
      case Some(v) => v
      case None => default
    }
  }

  /** The outcome of an operation that can fail with an error value. */
  datatype Result<+T, +E> = Success(value: T) | Failure(error: E)
}

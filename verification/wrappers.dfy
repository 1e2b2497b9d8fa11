/** Failure-carrying datatypes shared by the whole model: a JavaScript value
    that may be `undefined` is an `Option`, an operation that may throw
    returns a `Result` or an `Outcome`. */
module Wrappers {

  /** A value that may be absent (`undefined` in TypeScript). */
  datatype Option<+T> = None | Some(value: T) {

    /** The `??` operator: the value when present, otherwise `default`. */
    function GetOr(default: T): T {
      match this
      case Some(v) => v
      case None => default
    }
  }

  /** The value an operation returns, or what it throws. */
  datatype Result<+R, +E> = Success(value: R) | Failure(error: E)

  /** An operation that returns nothing, or throws. */
  datatype Outcome<+E> = Pass | Fail(error: E)
}

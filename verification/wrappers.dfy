/** Failure-carrying values shared by the stores and the utilities: a missing
    value (a JavaScript `null`), a computation that either returns or throws,
    and an action that either completes or throws. */
module Wrappers {

  /** `Some(v)` for a present value, `None` for `null` / `undefined`. */
  datatype Option<+T> = None | Some(value: T) {
    function GetOr(default: T): T {
      match this
      case Some(v) => v
      case None => default
    }
  }

  /** The outcome of a call that either returns a value or throws an error. */
  datatype Result<+R, +E> = Success(value: R) | Failure(error: E)

  /** The outcome of a call that returns nothing or throws an error. */
  datatype Outcome<+E> = Pass | Fail(error: E)
}

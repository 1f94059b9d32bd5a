/** Failure-compatible wrappers shared by the modules of this model. */
module Wrappers {

  /** A value that may be absent: a TypeScript optional field, or an SQL column that may be NULL. */
  datatype Option<+T> = None | Some(value: T) {
    function GetOr(default: T): T {
      match this
      case Some(v) => v
      case None => default
    }
  }

  /** The result of a call that returns nothing or throws `error`. */
  datatype Outcome<+E> = Pass | Fail(error: E)

  /** The result of a call that returns `value` or throws `error`. */
  datatype Result<+R, +E> = Success(value: R) | Failure(error: E)
}

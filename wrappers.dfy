/** Failure-carrying wrappers used in place of Rust's `Option` and `Result`. */
module Wrappers {

  datatype Option<+T> = None | Some(value: T) {
    /** The wrapped value, or `default` when there is none (`Option::unwrap_or`). */
    function GetOr(default: T): T {
      match this
      case Some(v) => v
      case None => default
    }
  }

  /** A value, or the message of the error that stopped the computation. */
  datatype Result<+T, +E> = Success(value: T) | Failure(error: E)

  /** Success without a value (`Result<()>`), or the message of the error. */
  datatype Outcome<+E> = Pass | Fail(error: E)
}

/** Option, result and outcome types used across the model. */
module Wrappers {

  /** An optional value: the model of a Python attribute or argument that may be `None`. */
  datatype Option<+T> = None | Some(value: T) {
    function GetOr(default: T): T {
      match this
      case Some(v) => v
      case None => default
    }
  }

  /** A result or the exception the source raises instead. */
  datatype Result<+T, +E> = Ok(value: T) | Err(error: E)

  /** Completion of an operation that returns nothing, or the exception it raises. */
  datatype Outcome<+E> = Pass | Fail(error: E)
}

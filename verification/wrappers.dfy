/** Option, Result and Outcome datatypes shared by the other modules. */
module Wrappers {

  datatype Option<+T> = None | Some(value: T) {
    function GetOr(default: T): T {
      match this
      case Some(v) => v
      case None => default
    }
  }

  /** The result of an operation that either completes or throws `error`. */
  datatype Outcome<+E> = Pass | Fail(error: E)

  /** The result of an operation that either returns a value or throws `error`. */
  datatype Result<+T, +E> = Ok(value: T) | Err(error: E)
}

/** Option, Result and Outcome: Python's "value, missing value or raised exception" in Dafny terms. */
module Wrappers {

  datatype Option<+T> = None | Some(value: T) {
    function GetOr(default: T): T {
      match this
      case Some(v) => v
      case None => default
    }
  }

  datatype Result<+T, +E> = Success(value: T) | Failure(error: E)

  /** The outcome of a Python call that returns nothing: it either returns or raises. */
  datatype Outcome<+E> = Pass | Fail(error: E)
}

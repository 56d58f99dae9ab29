/** Option and Result: the optional values and raised errors of the record-processing code. */
module Wrappers {

  /** A value that may be missing (the NaN sentinel or an absent JSON field). */
  datatype Option<+T> = None | Some(value: T) {
    function GetOr(default: T): T {
      match this
      case Some(v) => v
      case None => default
    }
  }

  /** Either a value or the error that the Python code raises. */
  datatype Result<+R, +E> = Success(value: R) | Failure(error: E)
}

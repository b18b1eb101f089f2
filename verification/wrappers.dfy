/** Option and Result datatypes shared by every module of the inventory model. */
module Wrappers {

  /** A value that may be absent (the source's `undefined` / `null`). */
  datatype Option<+T> = None | Some(value: T) {
    function GetOr(default: T): T {
      match this
      case Some(v) => v
      case None => default
    }
  }

  /** Either an accepted value or the error the source reports instead. */
  datatype Result<+R, +E> = Success(value: R) | Failure(error: E)
}

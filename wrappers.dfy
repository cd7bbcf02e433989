/** Option and Result: the model's replacement for Java's null, Optional and exceptions. */
module Wrappers {

  datatype Option<+T> = None | Some(value: T) {
    function GetOr(default: T): T
    {
      match this
      case Some(v) => v
      case None => default
    }
  }

  datatype Result<+R, +E> = Success(value: R) | Failure(error: E)

  /** Pass or the first failed check. */
  datatype Outcome<+E> = Pass | Fail(error: E)
}

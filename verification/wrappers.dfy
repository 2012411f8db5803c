/** Absence and failure as values: Java's null results and thrown exceptions. */
module Wrappers {

  /** A value that may be absent; None stands for Java's null / an empty Optional. */
  datatype Option<+T> = None | Some(value: T) {

    /** The value, or `default` when absent. */
    function GetOr(default: T): T
    {
      match this
      case Some(v) => v
      case None => default
    }
  }

  /** The outcome of a call that either returns a value or throws. */
  datatype Result<+T, +E> = Success(value: T) | Failure(error: E)
}

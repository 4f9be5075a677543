/** Option and Result values standing in for Java's null returns and thrown errors. */
module Wrappers {

  /** A nullable reference: None plays the role of Java's null. */
  datatype Option<+T> = None | Some(value: T) {
    function GetOr(default: T): T {
      match this
      case Some(v) => v
      case None => default
    }
  }

  /** The outcome of an operation that may throw: Failure carries what was thrown. */
  datatype Result<+R, +E> = Success(value: R) | Failure(error: E)
}

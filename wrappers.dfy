/** Failure-carrying values used across the model. */
module Wrappers {

  /** An optional value: `None` stands for a missing result or a failed remote call. */
  datatype Option<+T> = None | Some(value: T) {
    function GetOr(default: T): T {
      match this
      case Some(v) => v
      case None => default
    }
  }

  /** Either a value or the error the source would raise instead of returning. */
  datatype Result<+R, +E> = Success(value: R) | Failure(error: E)
}

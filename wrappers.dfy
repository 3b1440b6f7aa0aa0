/** Optional values and results with an error path, shared by every module. */
module Wrappers {

  /** A possibly-missing value: `None` stands for a null / NaN cell. */
  datatype Option<+T> = None | Some(value: T) {
    function GetOr(default: T): T {
      match this
      case Some(v) => v
      case None => default
    }
  }

  /** The outcome of an operation that can fail. */
  datatype Result<+R, +E> = Success(value: R) | Failure(error: E)
}

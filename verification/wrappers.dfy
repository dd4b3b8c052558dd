/** Failure-compatible wrappers shared by the model: a missing CSV cell is `None`,
    and an aborted load is a `Failure`. */
module Wrappers {

  /** A possibly-missing value; `None` stands for a pandas NaN cell. */
  datatype Option<+T> = None | Some(value: T) {

    /** `fillna(default)` for one cell. */
    function GetOr(default: T): T
    {
      match this
      case Some(v) => v
      case None => default
    }
  }

  /** The outcome of a computation that either succeeds with a value or fails with an error. */
  datatype Result<+R, +E> = Success(value: R) | Failure(error: E)
}

/** Optional values and success-or-error results, standing in for the
    source's `T | undefined` / `T | null` values and thrown `Error`s. */
module Outcomes {

  datatype Option<+T> = None | Some(value: T) {
    /** `x ?? d` */
    function GetOr(default: T): T {
      match this
      case Some(v) => v
      case None => default
    }
  }

  datatype Result<+T, +E> = Success(value: T) | Failure(error: E)
}

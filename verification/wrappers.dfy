/** Optional values and failure results: JavaScript's `undefined`/`null` and
    thrown errors, made explicit. */
module Wrappers {

  /** A value that may be absent (`undefined` or `null` in the source). */
  datatype Option<+T> = None | Some(value: T) {

    /** `x ?? d` / `x || d` for a value whose falsy cases are only "absent". */
    function GetOr(default: T): T
    {
      match this
      case Some(v) => v
      case None => default
    }
  }

  /** Either a value or the error the source would throw or report. */
  datatype Result<+R, +E> = Success(value: R) | Failure(error: E)
}

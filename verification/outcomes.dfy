/** Optional values and results, the shapes Python expresses with `None` and exceptions. */
module Outcomes {

  /** A value that may be absent (Python's `Optional[T]`). */
  datatype Option<+T> = None | Some(value: T) {

    /** The wrapped value, or `default` when absent (Python's `x or default` for `None`). */
    function UnwrapOr(default: T): T {
      match this
      case Some(v) => v
      case None => default
    }
  }

  /** Either a successful value or the error that ended the call. */
  datatype Result<+R, +E> = Success(value: R) | Failure(error: E)
}

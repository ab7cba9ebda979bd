/** Optional and fallible values: `Option` for a search that may find nothing
    (JavaScript's `-1` from `findIndex`), `Result` for an operation that may
    throw. */
module Wrappers {

  datatype Option<+T> = None | Some(value: T) {

    /** The value, or `default` when there is none. */
    function GetOr(default: T): T {
      match this
      case Some(v) => v
      case None => default
    }
  }

  /** `Failure(e)` stands for the exception `e` the source throws; `Success(v)`
      for the normal return with value or new state `v`. */
  datatype Result<+T, +E> = Success(value: T) | Failure(error: E)
}

/** Optional values and operation outcomes. */
module Wrappers {

  /** A value that may be absent (`$first` of an empty array, an empty `$group`). */
  datatype Option<+T> = None | Some(value: T) {

    /** The value, or `default` when absent. */
    function GetOr(default: T): T {
      match this
      case Some(v) => v
      case None => default
    }
  }

  /** What a controller answers: a value on success, or the HTTP status code of
      the `ApiError` it throws. */
  datatype Result<+T> = Ok(value: T) | Err(status: nat)
}

/** Optional values: Python's `None` / value, as the vault passes them around. */
module Wrappers {

  datatype Option<+T> = None | Some(value: T) {

    /** The wrapped value, or `default` for `None`. */
    function GetOr(default: T): T {
      match this
      case Some(v) => v
      case None => default
    }
  }

  /** Either a value or the error the source raises instead of returning one. */
  datatype Result<+T, +E> = Ok(value: T) | Err(error: E)
}

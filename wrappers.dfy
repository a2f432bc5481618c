/** Optional values and results with an error, shared by every module. */
module Wrappers {

  /** Python's `Optional[T]`: a value or `None`. */
  datatype Option<+T> = None | Some(value: T) {
    function GetOr(default: T): T {
      match this
      case Some(v) => v
      case None => default
    }
  }

  /** A value or the text of the exception the source would raise. */
  datatype Result<+R, +E> = Ok(value: R) | Err(error: E)
}

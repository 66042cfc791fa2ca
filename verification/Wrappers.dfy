/** Small value types shared by every module. */
module Wrappers {

  /** A value that may be absent: a SQL NULL, a missing key, Python's None, JavaScript's undefined. */
  datatype Option<+T> = None | Some(value: T) {
    function GetOr(default: T): T {
      match this
      case Some(v) => v
      case None => default
    }
  }

  /** The outcome of an operation that reports an error instead of a value. */
  datatype Result<+T, +E> = Ok(value: T) | Err(error: E)
}

/** Failure-carrying values shared by every module of the model: `Option` for
    a value that may be absent (a missing key, a file that could not be read,
    a callback that is not installed) and `Result` for an operation that
    either produces a value or fails with an error. */
module Wrappers {

  datatype Option<+T> = None | Some(value: T) {

    /** The carried value, or `default` when there is none. */
    function GetOr(default: T): T {
      match this
      case Some(v) => v
      case None => default
    }
  }

  datatype Result<+R, +E> = Ok(value: R) | Err(error: E)
}

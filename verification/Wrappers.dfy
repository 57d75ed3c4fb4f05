/** Failure-compatible values shared by every module. */
module Wrappers {

  /** A value that may be absent: the source's `Option`. */
  datatype Option<+T> = None | Some(value: T)

  function UnwrapOr<T>(o: Option<T>, default: T): T {
    match o
    case Some(v) => v
    case None => default
  }

  /** A value or an error: the source's `Result`. */
  datatype Result<+T, +E> = Ok(value: T) | Err(error: E)
}

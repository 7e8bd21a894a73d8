/** Failure-carrying values used for the program's exceptions and for values that may be absent. */
module Wrappers {

  /** A value that may be absent (Python's `None`). */
  datatype Option<+T> = None | Some(value: T)

  /** Either a normal return value or the exception raised instead. */
  datatype Result<+T, +E> = Ok(value: T) | Err(error: E)
}

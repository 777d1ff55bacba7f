/** Failure-compatible results shared by the other modules. */
module Wrappers {
  // A value that the program may represent as null or undefined.
  datatype Option<+T> = None | Some(value: T)

  // A value, or the exception that was thrown instead of it.
  datatype Result<+T, +E> = Ok(value: T) | Err(error: E)
}

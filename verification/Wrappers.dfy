/** The two result types shared by every module. */
module Wrappers {
  datatype Option<+T> = None | Some(value: T)

  /** A value, or the error a Go function returned instead of one. */
  datatype Result<+T, +E> = Ok(value: T) | Err(error: E)
}

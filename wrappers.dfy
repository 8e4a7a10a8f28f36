/** Failure-compatible result types shared by the modules of this project. */
module Wrappers {

  datatype Option<+T> = None | Some(value: T)

  /** Either a computed value or the error that a caller would see raised. */
  datatype Result<+T, +E> = Ok(value: T) | Err(error: E)
}

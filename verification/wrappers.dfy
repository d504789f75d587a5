/** Failure-carrying wrappers shared by the hex-grid modules. */
module Wrappers {

  /** A value that may be missing: `None` stands for an operation that raises. */
  datatype Option<+T> = None | Some(value: T)

  /** A value or the reason it could not be produced. */
  datatype Result<+T, +E> = Ok(value: T) | Err(error: E)
}

/** Failure-compatible wrappers shared by every module of the model. */
module Wrappers {

  /** A value that may be missing (JavaScript's `undefined`). */
  datatype Option<+T> = None | Some(value: T)

  /** Either a value or a typed failure (a thrown error in the source). */
  datatype Result<+R, +E> = Ok(value: R) | Err(error: E)
}

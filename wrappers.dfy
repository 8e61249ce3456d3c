/** Option and Result values used for the error paths of the model. */
module Wrappers {

  datatype Option<+T> = None | Some(value: T)

  /** A computation that either succeeds with a value or fails with an error
      (the model of a thrown exception). */
  datatype Result<+R, +E> = Ok(value: R) | Err(error: E)
}

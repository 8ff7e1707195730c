/** Failure-carrying result types used by every script model. */
module Wrappers {

  datatype Option<+T> = None | Some(value: T)

  /** A value, or the error the Python code would raise instead of returning. */
  datatype Result<+R, +E> = Ok(value: R) | Err(error: E)
}

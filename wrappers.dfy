/**
 * Optional values and results with an error: a result key that may be missing, and the
 * error a scoring call raises.
 */
module Wrappers {
  datatype Option<+T> = None | Some(value: T)

  datatype Result<+T, +E> = Ok(value: T) | Err(error: E)
}

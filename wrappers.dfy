/** Failure-carrying values shared by the modules of the model. */
module Wrappers {

  /** An optional value: a JSON key that may be absent. */
  datatype Option<+T> = None | Some(value: T)

  /** A value or the error that stopped the computation. */
  datatype Result<+T, +E> = Ok(value: T) | Err(error: E)
}

/** Option and Result, the failure-carrying datatypes used throughout the model. */
module Wrappers {

  /** A value that may be absent: JavaScript's `undefined`/`null` or a present value. */
  datatype Option<+T> = None | Some(value: T)

  /** The value of a computation that either returns normally or throws. */
  datatype Result<+T, +E> = Ok(value: T) | Err(error: E)
}

/** Option and Result, the two failure-carrying datatypes the model uses. */
module Wrappers {

  /** Some value, or nothing (JavaScript's `null` / `undefined`). */
  datatype Option<+T> = None | Some(value: T)

  /** A value, or the error an operation throws instead of returning. */
  datatype Result<+R, +E> = Ok(value: R) | Err(error: E)
}

/** Option and Result, the shapes that stand in for JavaScript's `null` and for thrown errors. */
module Wrappers {

  /** A value or JavaScript's `null`. */
  datatype Option<+T> = None | Some(value: T)

  /** The value of an expression that may throw: Ok with its value, or Err with what was thrown. */
  datatype Result<+T, +E> = Ok(value: T) | Err(error: E)
}

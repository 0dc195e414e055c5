/** Outcomes of the solutions' operations: a value, or the exception Python would raise. */
module Wrappers {

  /** Python's `None | T` return values. */
  datatype Option<+T> = None | Some(value: T)

  /** A value, or the error that ends the Python computation with an exception. */
  datatype Result<+T, +E> = Ok(value: T) | Err(error: E)
}

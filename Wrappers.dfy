/** Option and Result, as the rest of the model uses them. */
module Wrappers {

  /** A value that may be absent: Python's `None` versus a present value. */
  datatype Option<+T> = None | Some(value: T)

  /** The outcome of an expression that may raise a Python exception. */
  datatype Result<+T, +E> = Ok(value: T) | Err(error: E)
}

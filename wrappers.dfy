/** Failure-carrying values used across the model: a missing value, and the
    outcome of an operation that can raise. */
module Wrappers {

  datatype Option<+T> = None | Some(value: T)

  /** `Err` stands for a Python exception escaping the operation. */
  datatype Result<+T, +E> = Ok(value: T) | Err(error: E)
}

/** Failure-carrying datatypes: Go's `(value, error)` pairs and absent store entries. */
module Wrappers {
  datatype Option<+T> = None | Some(value: T)

  datatype Result<+T, +E> = Ok(value: T) | Err(error: E)
}

// Optional values and results, shared by every module.
module Wrappers {

  // A Go pointer, interface or map lookup that may hold nothing.
  datatype Option<+T> = None | Some(value: T)

  // A Go `(value, error)` pair: either the value or the error.
  datatype Result<+T, +E> = Ok(value: T) | Err(error: E)
}

/** The optional value used wherever the program has "not found", and the result of a call that may throw. */
module Wrappers {
  datatype Option<+T> = None | Some(value: T)

  datatype Result<+T, +E> = Ok(value: T) | Err(error: E)
}

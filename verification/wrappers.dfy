/** Failure-carrying results shared by the parser, the interpreter and the compiler. */
module Wrappers {

  datatype Option<+T> = None | Some(value: T)

  /** A value, or the error that prevented producing it. */
  datatype Result<+T, +E> = Ok(value: T) | Err(error: E)
}

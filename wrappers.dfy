/** Option and Result types used for the program's optional values and fatal errors. */
module Wrappers {

  datatype Option<+T> = None | Some(value: T)

  /** A computation that either yields a value or stops the process with a failure. */
  datatype Result<+T, +E> = Ok(value: T) | Err(error: E)
}

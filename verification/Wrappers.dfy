/** Stock result types shared by every module. */
module Wrappers {

  datatype Option<+T> = None | Some(value: T)

  /** Outcome of an operation that may raise. */
  datatype Result<+T, +E> = Ok(value: T) | Err(error: E)
}

/** Failure-carrying values shared by every module of the model. */
module Wrappers {

  /** A value that may be absent (Python's None, Rust's Option). */
  datatype Option<T> = None | Some(value: T)

  /** The outcome of a step that may fail, named as Rust names it. */
  datatype Result<T, E> = Ok(value: T) | Err(error: E)
}

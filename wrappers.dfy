/** Failure-carrying results shared by the other modules. */
module Wrappers {

  datatype Option<T> = None | Some(value: T)

  /** The value of an operation that can fail with an error of type E. */
  datatype Result<T, E> = Ok(value: T) | Err(error: E)

  /** The outcome of an operation that returns nothing but can fail. */
  datatype Outcome<E> = Pass | Fail(error: E)
}

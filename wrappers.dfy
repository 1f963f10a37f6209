/** Failure-carrying values shared by every module of the model. */
module Wrappers {

  /** Python's `None` or a value. */
  datatype Option<T> = None | Some(value: T)

  /** The outcome of an operation that may raise: the value, or the raised message. */
  datatype Result<T> = Ok(value: T) | Err(msg: string)
}

/** Failure-carrying wrappers shared by the whole model. */
module Wrappers {

  /** A value that may be absent: an undefined request field, a null path. */
  datatype Option<T> = None | Some(value: T)

  /** The outcome of a request handler: a reply value or an error kind. */
  datatype Result<T, E> = Ok(value: T) | Err(error: E)
}

/** Failure-compatible wrappers shared by the model's modules. */
module Wrappers {

  /** An optional value: a provider answer that may be missing, a table lookup that may miss. */
  datatype Option<+T> = None | Some(value: T)

  /** The outcome of an operation that Python ends either by returning a value or by raising. */
  datatype Result<+R, +E> = Success(value: R) | Failure(error: E)
}

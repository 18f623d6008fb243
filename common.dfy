/** Option and Result values used for the source's None and raised exceptions. */
module Common {
  datatype Option<+T> = None | Some(value: T)

  /** Success(value) for a normal return, Failure(error) for an exception whose str() is `error`. */
  datatype Result<+T, +E> = Success(value: T) | Failure(error: E)
}

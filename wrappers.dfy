/** Option and Result: absent values and the error answers of the handlers. */
module Wrappers {

  datatype Option<+T> = None | Some(value: T)

  /** Success carries the handler's answer, Failure the error it reports. */
  datatype Result<+R, +E> = Success(value: R) | Failure(error: E)
}

/** Option and Result, the failure-carrying datatypes used across the model. */
module Wrappers {

  /** A value that may be absent (Python's `None` as a return value). */
  datatype Option<+T> = None | Some(value: T)

  /** Either a decoded value or the exception that stopped the decoding. */
  datatype Result<+R, +E> = Success(value: R) | Failure(error: E)
}

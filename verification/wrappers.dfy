/** Option and Result, the two failure-carrying shapes the patchers return. */
module Wrappers {

  datatype Option<+T> = None | Some(value: T)

  /** A call that either produced a value or failed with a typed error. */
  datatype Result<+T, +E> = Success(value: T) | Failure(error: E)
}

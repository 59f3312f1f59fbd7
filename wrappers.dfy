/** Option and Result, the two failure-carrying datatypes the rest of the model uses. */
module Wrappers {

  datatype Option<+T> = None | Some(value: T)

  /** A fallible outcome: `Success` carries the value, `Failure` the reason the source would panic or return an error. */
  datatype Result<+R, +E> = Success(value: R) | Failure(error: E)
}

/** Option and Result, the two failure-carrying shapes the model uses. */
module Wrappers {

  /** A value that may be missing: an absent query parameter, a NaN, a failed `find`. */
  datatype Option<+T> = None | Some(value: T)

  /** A handler outcome: a response, or an error condition the transport maps to a status. */
  datatype Result<+R, +E> = Success(value: R) | Failure(error: E)
}

/** Option and Result, for the `undefined` lookups and the thrown errors of the order book. */
module Wrappers {

  datatype Option<+T> = None | Some(value: T)

  datatype Result<+R, +E> = Success(value: R) | Failure(error: E)
}

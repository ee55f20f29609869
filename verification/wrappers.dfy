/** Failure-compatible result type used for the operations that either
    produce a value or report an error message instead of raising. */
module Wrappers {

  /** Either a computed value or the error that stopped the computation. */
  datatype Result<+T, +E> = Success(value: T) | Failure(error: E)
}

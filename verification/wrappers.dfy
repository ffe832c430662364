/** Optional values and results used by the driver logic. */
module Wrappers {

  /** A value that may be absent, e.g. a command-line option that was not given. */
  datatype Option<+T> = None | Some(value: T)

  /** Either a computed value or the error that stopped the computation. */
  datatype Result<+R, +E> = Success(value: R) | Failure(error: E)
}

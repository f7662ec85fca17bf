/** Optional values and success/failure results used throughout the model. */
module Wrappers {

  /** A value that may be missing (a nullable column or an omitted filter). */
  datatype Option<+T> = None | Some(value: T)

  /** The outcome of a controller action: its value, or the error the caller sees. */
  datatype Result<+R, +E> = Success(value: R) | Failure(error: E)
}

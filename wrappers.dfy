/** Optional values and results, used where the library returns `undefined` or throws. */
module Wrappers {

  datatype Option<+T> = None | Some(value: T)

  /** `Failure` stands for an exception thrown by the modelled call. */
  datatype Result<+T, +E> = Success(value: T) | Failure(error: E)
}

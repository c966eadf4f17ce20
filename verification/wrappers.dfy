/** Failure-compatible wrappers shared by the classifier and the cache. */
module Wrappers {

  /** A value that may be missing. */
  datatype Option<+T> = None | Some(value: T)

  /** Either a value or the error that replaced it (a thrown exception in the source). */
  datatype Result<+R, +E> = Success(value: R) | Failure(error: E)
}

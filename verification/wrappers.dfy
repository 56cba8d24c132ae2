/** Failure-carrying wrappers shared by the rest of the model. */
module Wrappers {

  /** A value that may be absent (a null pointer, a missing key). */
  datatype Option<+T> = None | Some(value: T)

  /** Either a value or the error the operation signals instead. */
  datatype Result<+T, +E> = Success(value: T) | Failure(error: E)
}

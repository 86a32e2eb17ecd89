/** Java's nullable references and exceptions, as values. */
module Wrappers {

  /** A Java reference that may be `null` (`None`). */
  datatype Option<+T> = None | Some(value: T)

  /** A computation that either returns a value or throws an exception. */
  datatype Result<+T, +E> = Success(value: T) | Failure(error: E)
}

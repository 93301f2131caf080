/** Small failure-compatible wrappers shared by the other modules. */
module Wrappers {

  /** A value that may be absent; it stands for SQL NULL and for `.first()` finding nothing. */
  datatype Option<+T> = None | Some(value: T)

  /** Either a value or an error, for endpoints that may answer with an HTTP error. */
  datatype Result<+T, +E> = Success(value: T) | Failure(error: E)
}

/** Failure-carrying results for operations that throw in the Java program. */
module Results {

  /** Either the value an operation produced or the error it raised. */
  datatype Result<+T, +E> = Success(value: T) | Failure(error: E)

  /** A field that may be absent, as a JSON value that may be null. */
  datatype Option<+T> = None | Some(value: T)
}

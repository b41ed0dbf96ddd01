/** Failure-carrying wrappers shared by the recovery and interception models. */
module Results {

  /** A value that may be absent (a Java reference that may be null). */
  datatype Option<+T> = None | Some(value: T)

  /** Either a value or the error that a Java method would have thrown instead. */
  datatype Result<+T, +E> = Ok(value: T) | Err(error: E)
}

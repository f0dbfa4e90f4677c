/** Failure-carrying wrappers shared by the modules of this model. */
module Results {

  /** A value that may be absent (a TypeScript `T | null`). */
  datatype Option<+T> = None | Some(value: T)

  /** The outcome of an operation that either succeeds or throws. */
  datatype Result<+T, +E> = Ok(value: T) | Err(error: E)
}

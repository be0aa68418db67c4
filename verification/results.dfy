/** Failure-carrying values shared by every module of the model. */
module Results {

  /** The value of a constructor or port call that either succeeds or raises. */
  datatype Result<+T, +E> = Ok(value: T) | Err(error: E)

  /** A value that may be absent; used by the decoders that invert a rendering. */
  datatype Option<+T> = None | Some(value: T)
}

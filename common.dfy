/** Failure-carrying wrappers shared by the logic engine and the schema parser. */
module Common {

  datatype Option<+T> = None | Some(value: T)

  /** A computed value, or the error that stopped the computation. */
  datatype Result<+T, +E> = Ok(value: T) | Err(error: E)

  /** The status code of a routine that returns no value: 0 (Pass) or a failure. */
  datatype Outcome<+E> = Pass | Fail(error: E)
}

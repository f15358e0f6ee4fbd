/** Failure-carrying wrappers shared by the other modules. */
module Options {

  /** A value that may be absent; used where the Python code returns -1 or None. */
  datatype Option<+T> = None | Some(value: T)

  /** A value or the error the Python code would raise instead of returning. */
  datatype Result<+R, +E> = Success(value: R) | Failure(error: E)
}

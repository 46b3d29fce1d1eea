/** Small value wrappers shared by the modules of this model. */
module Common {

  /** A value that may be absent: Python's None, JavaScript's null, a missing JSON key. */
  datatype Option<+T> = None | Some(value: T)

  /** The outcome of an operation that can raise. */
  datatype Result<+T, +E> = Success(value: T) | Failure(error: E)

}

/** Failure-carrying wrappers shared by every module of the model: an
    optional value (Python's `None` or a value) and a value-or-exception. */
module Results {

  datatype Option<+T> = None | Some(value: T)

  /** `Failure` stands for a Python exception raised instead of a value. */
  datatype Result<+T, +E> = Success(value: T) | Failure(error: E)
}

/** Failure-carrying values: a nullable reference and an operation that may throw. */
module Results {

  /** A reference that may be null (`None`). */
  datatype Option<+T> = None | Some(value: T)

  /** The outcome of a call that either returns a value or throws an exception. */
  datatype Result<+T, +E> = Success(value: T) | Failure(error: E)

  /** The exceptions the conversion core can raise: `FormatException`
      (malformed line, or a non-numeric index token for `int.Parse`) and
      `OverflowException` (an index token outside the 32-bit range). */
  datatype Exc = FormatError | OverflowError
}

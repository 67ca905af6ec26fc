/** Outcomes of operations that the source ends with an exception. */
module Results {
  datatype Result<+T, +E> = Success(value: T) | Failure(error: E)

  datatype Option<+T> = None | Some(value: T)
}

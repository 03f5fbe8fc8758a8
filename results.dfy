/** Option and Result values used across the model for Python's None and raised exceptions. */
module Results {

  datatype Option<+T> = None | Some(value: T)

  /** Success carries the value computed; Failure carries the exception the script would raise. */
  datatype Result<+T, +E> = Success(value: T) | Failure(error: E)
}

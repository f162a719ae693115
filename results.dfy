/** Option and Result: the model's stand-ins for Python's None and for
    exceptions that a function raises instead of returning. */
module Results {

  datatype Option<+T> = None | Some(value: T)

  datatype Result<+T, +E> = Success(value: T) | Failure(error: E)
}

/** Option and Result values shared by the task service and the request validators. */
module Common {

  /** An optional value: the service's `null` results and the request's absent fields. */
  datatype Option<+T> = None | Some(value: T)

  /** A successful value, or the error the service throws instead of returning. */
  datatype Result<+T, +E> = Success(value: T) | Failure(error: E)
}

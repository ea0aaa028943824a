/** Optional values and success/failure results shared by the gateway model. */
module Wrappers {

  /** A Python `Optional[T]`: `None` or a present value. */
  datatype Option<+T> = None | Some(value: T)

  /** The outcome of a handler: a value, or the error it raises. */
  datatype Result<+R, +E> = Success(value: R) | Failure(error: E)

  /** The status code and detail of the HTTP error a handler raises. */
  datatype HttpError = HttpError(statusCode: int, detail: string)
}

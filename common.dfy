/** Failure-carrying datatypes shared by every module of the model, and the
    kinds of failure the backend can end a request with. */
module Common {

  datatype Option<T> = None | Some(value: T)

  datatype Result<T, E> = Ok(value: T) | Err(error: E)

  datatype Outcome<E> = Pass | Fail(error: E)

  /** How a request handled by the backend can fail. */
  datatype Error =
    /** django.core.exceptions.ValidationError with its message text */
    | ValidationError(message: string)
    /** the TypeError Python raises when a bare int is unpacked as a pair */
    | UnpackError
    /** an HTTP 400 response without a body */
    | BadRequest
}

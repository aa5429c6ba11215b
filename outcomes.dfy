/** Success and error values of the request handlers. */
module Outcomes {

  datatype Option<+T> = None | Some(value: T)

  /** The HTTP errors the handlers answer with: 400 with a message, 404 with a
      message, and 500 for an exception thrown inside a handler. */
  datatype Error =
    | BadRequest(message: string)
    | NotFound(message: string)
    | InternalError

  datatype Result<+T> = Ok(value: T) | Err(error: Error)
}

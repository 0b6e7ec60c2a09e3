/** Optional request fields, handler results and the HTTP failures the handlers answer with. */
module Outcomes {

  /** A request-body field that may be absent (JavaScript `undefined` or `null`). */
  datatype Option<+T> = None | Some(value: T)

  /** What a handler answers: a success value, or a failure carrying its status and message. */
  datatype Result<+T> = Ok(value: T) | Err(failure: Failure)

  /** The failure responses the handlers send. */
  datatype Failure =
    | BadRequest(message: string)   // 400
    | Forbidden(message: string)    // 403
    | NotFound(message: string)     // 404
    | ServerError(message: string)  // 500
}

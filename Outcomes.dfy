/** Optional values, results, and the exceptions the order API raises. */
module Outcomes {

  /** A JavaScript value that may be `undefined` / `null`. */
  datatype Option<T> = None | Some(value: T)

  /** A call that either returns a value or throws. */
  datatype Result<T, E> = Ok(value: T) | Err(error: E)

  /** The exceptions of the core, by the HTTP status NestJS gives them. */
  datatype Failure =
    | BadRequest(message: string)     // BadRequestException, 400
    | Unauthorized(message: string)   // UnauthorizedException, 401
    | NotFound(message: string)       // NotFoundException, 404
    | UpstreamError                   // an OCR or completion-service error, rethrown as is
    | StoreRejected(reason: string)   // a request DynamoDB refuses, rethrown as is
}

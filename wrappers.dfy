/** Optional values and error-carrying results, used across the model. */
module Wrappers {

  /** A value that may be absent (JavaScript `undefined`/`null` at a typed boundary). */
  datatype Option<+T> = None | Some(value: T)

  /** The outcome of an operation that either returns a value or throws an error. */
  datatype Result<+R, +E> = Success(value: R) | Failure(error: E)

  /** The outcome of a check that either passes or throws an error. */
  datatype Outcome<+E> = Pass | Fail(error: E)
}

/**
 * The HTTP error classes the services throw: `HttpError` with its
 * `BadRequestError` (400), `NotFoundError` (404) and `TooManyRequestsError` (429)
 * subclasses in the CommonJS tree, and `HttpError(status, ...)` in the TypeScript
 * tree. A 500 carries the generic message the services choose. A plain `Error`
 * that escapes a TypeScript service is `Unhandled`: the error handler answers it
 * with a 500 and does not send its message.
 */
module Errors {

  datatype HttpError =
    | BadRequest(message: string)
    | NotFound(message: string)
    | TooManyRequests(message: string)
    | Internal(message: string)
    | Unhandled(message: string)
  {
    /** The HTTP status code the response carries. */
    function Status(): (code: nat)
      ensures code == 400 <==> this.BadRequest?
      ensures code == 404 <==> this.NotFound?
      ensures code == 429 <==> this.TooManyRequests?
      ensures code == 500 <==> this.Internal? || this.Unhandled?
    {
      match this
      case BadRequest(_) => 400
      case NotFound(_) => 404
      case TooManyRequests(_) => 429
      case Internal(_) => 500
      case Unhandled(_) => 500
    }
  }

  /**
   * What the document store throws when an operation fails: an `Error` with
   * its `name` (`ValidationError`, `CastError`, ...) and `message`, or a
   * thrown value that is not an `Error`.
   */
  datatype StoreFault = StoreError(name: string, message: string) | NonError
}

/** Failure-carrying values used instead of the source's raised exceptions. */
module Outcomes {

  datatype Option<+T> = None | Some(value: T) {
    function GetOr(default: T): T {
      match this
      case Some(v) => v
      case None => default
    }
  }

  datatype Result<+R, +E> = Success(value: R) | Failure(error: E)

  /**
   * The HTTP errors raised by the routers. The status code is the
   * constructor; `detail` is the message the handler attaches.
   */
  datatype ApiError =
    | BadRequest(detail: string)      // 400
    | Forbidden(detail: string)       // 403
    | NotFound(detail: string)        // 404
    | Unprocessable(detail: string)   // 422, raised by query/body validation
}

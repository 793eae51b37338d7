/** Option and Result types shared by every module of the model. Python's `None`,
    JavaScript's `null`/`undefined` and raised HTTP errors are all expressed with these. */
module Wrappers {

  datatype Option<+T> = None | Some(value: T) {
    function GetOr(default: T): T {
      match this
      case Some(v) => v
      case None => default
    }
  }

  datatype Result<+T, +E> = Ok(value: T) | Err(error: E)

  /** An HTTP error as FastAPI reports it: status code and detail text. */
  datatype HttpError = HttpError(status: int, detail: string)

  const BadRequest := 400
  const Unauthorized := 401
  const Forbidden := 403
  const NotFound := 404
  const ServerError := 500

  /** The text Starlette answers with when a handler raises an exception nobody catches. */
  const ServerErrorMessage := "Internal Server Error"
}

/** Optional values, the service layer's error taxonomy and results that carry it. */
module Wrappers {

  datatype Option<+T> = None | Some(value: T) {
    function GetOr(default: T): T {
      match this
      case Some(v) => v
      case None => default
    }
  }

  /** The exceptions the services raise. `Internal` stands for every error that is not an
      HTTP exception (ORM validation and constraint errors, plain `Error`s), which the
      exception filter turns into a 500 response. */
  datatype HttpError =
    | BadRequest(message: string)
    | NotFound(message: string)
    | Unauthorized(message: string)
    | Internal(message: string)

  datatype Result<+T> = Ok(value: T) | Err(error: HttpError)
}

/** Optional values and results with an error value, shared by every module. */
module Results {

  datatype Option<+T> = None | Some(value: T)

  datatype Result<+T, +E> = Ok(value: T) | Err(error: E)
}

/** The error a request handler raises: an HTTP status and the `detail` text. */
module Http {

  datatype HttpError = HttpError(status: nat, detail: string)

  const BadRequest := 400
  const Unauthorized := 401
  const Forbidden := 403
  const NotFound := 404
  const Conflict := 409
  const UnprocessableEntity := 422
  const InternalServerError := 500

  /** The `detail` of an error whose text comes from the database driver's exception. */
  const DatabaseErrorDetail := "database constraint violated"
}

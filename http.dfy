/**
 * Values that cross the HTTP boundary of the upload backend: optional
 * values, the outcome of an endpoint, and the error (status code and
 * detail text) that FastAPI turns an HTTPException into.
 */
module Http {

  datatype Option<T> = None | Some(value: T)

  /** An HTTPException as the client sees it. */
  datatype HttpError = HttpError(status: int, detail: string)

  /** Either the endpoint's response body or the exception it raised. */
  datatype Result<T> = Ok(value: T) | Err(error: HttpError)

  const BadRequest: int := 400
  const Unauthorized: int := 401
}

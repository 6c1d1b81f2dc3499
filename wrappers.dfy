/** Optional values and results with an error, as used by the whole model. */
module Wrappers {

  /** A value that may be missing (a nil pointer in the source). */
  datatype Option<+T> = None | Some(value: T)

  /** A value or the error that took its place (Go's `(T, error)` pair). */
  datatype Result<+T, +E> = Ok(value: T) | Err(error: E)
}

/** The HTTP status codes the core answers with. */
module Http {
  const StatusOK: int := 200
  const StatusBadRequest: int := 400
  const StatusUnauthorized: int := 401
  const StatusForbidden: int := 403
  const StatusNotFound: int := 404
  const StatusNotAcceptable: int := 406
  const StatusConflict: int := 409
  const StatusUnprocessableEntity: int := 422
  const StatusInternalServerError: int := 500
}

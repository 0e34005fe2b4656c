/** The HTTP status codes the authentication core uses (the `http-status` package). */
module HttpStatus {

  const BadRequest: int := 400
  const Unauthorized: int := 401
  const Forbidden: int := 403
  const InternalServerError: int := 500
}

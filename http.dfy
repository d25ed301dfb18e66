/** The HTTP errors the server's services raise (Nest's
    `BadRequestException`, `ForbiddenException`-like `HttpException(…, 403)`
    and `InternalServerErrorException`), as values. */
module Http {

  datatype HttpError = HttpError(status: int, message: string)

  function BadRequest(message: string): HttpError {
    HttpError(400, message)
  }

  function Forbidden(message: string): HttpError {
    HttpError(403, message)
  }

  function InternalServerError(message: string): HttpError {
    HttpError(500, message)
  }
}

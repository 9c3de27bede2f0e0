/** What a controller method answers: a body (status 200) or an error status
    with its message. */
module Http {
  datatype Status = BadRequest | Unauthorized | Forbidden | PaymentRequired
                  | UnsupportedMediaType | InternalServerError

  datatype Reply<T> = Success(value: T, message: string) | Failure(status: Status, message: string)
}

/** The HTTP responses the handlers send: a status with either a JSON payload or an
    `{ error }` message. */
module Http {
  datatype Reply<T> = Success(status: int, value: T) | Failure(status: int, error: string)

  /** What an async handler does: it sends a reply, or it throws outside any `try`, so that its
      promise rejects and no reply is sent. */
  datatype Outcome<T> = Sent(reply: Reply<T>) | Rejected(error: string)
}

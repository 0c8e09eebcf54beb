/** Shared result types of the authentication and catalogue services. */
module Common {

  /** A value that may be absent (a nullable column or an omitted DTO field). */
  datatype Option<T> = None | Some(value: T)

  /**
   * The failures the services raise. In the service they are HTTP exceptions:
   * EmailInUse, InvalidToken, InvalidOrExpiredToken and UserNotFound are
   * "bad request" errors, InvalidCredentials is "unauthorized", ProductNotFound
   * is "not found".
   */
  datatype Error =
    | EmailInUse
    | InvalidCredentials
    | InvalidToken
    | InvalidOrExpiredToken
    | UserNotFound
    | ProductNotFound

  /** The outcome of an operation that can fail with one of the errors above. */
  datatype Result<T> = Ok(value: T) | Err(error: Error)
}

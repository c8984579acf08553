/** The bot's error value: a message, what went wrong and how the user is told. */
module AppErrors {

  /** What kind of failure an error reports. */
  datatype ErrorType = Option | Command | File | Language | Module | WebRequest | Database

  /** How the error reaches the user: a fresh message, a followup, or not at all. */
  datatype ErrorResponseType = Message | Followup | Unknown | None

  /** `AppError { message, error_type, error_response_type }` */
  datatype AppError = AppError(message: string, errorType: ErrorType, responseType: ErrorResponseType)
}

/** Option and Result values, and the error object the controllers throw. */
module Wrappers {

  datatype Option<+T> = None | Some(value: T)

  /** A thrown JavaScript `Error`: its `statusCode` (absent on a plain TypeError) and its message. */
  datatype Failure = Failure(statusCode: Option<nat>, message: string)

  datatype Result<+T> = Ok(value: T) | Err(error: Failure)

  /** An error carrying an HTTP status code. */
  function Status(code: nat, message: string): Failure
  {
    Failure(Some(code), message)
  }

  /** An error thrown by the runtime (a TypeError on a missing row), with no status code. */
  function Crash(message: string): Failure
  {
    Failure(None, message)
  }

  /** The error `validationHandler` throws when the request failed its express-validator checks. */
  const VALIDATION_FAILED: Failure := Status(422, "Validation failed.")
}

/** Null-able values and results of operations that may throw. */
module Wrappers {

  /** A Java reference that may be `null`. */
  datatype Option<+T> = None | Some(value: T)

  /** The value a Java method returns, or the exception it throws. */
  datatype Result<+R, +E> = Success(value: R) | Failure(error: E)

  /** Completion of a `void` Java method: normal return, or the exception it throws. */
  datatype Outcome<+E> = Pass | Fail(error: E)
}

/** The exceptions the registration workflow raises (com.sismics.rest.exception). */
module Exceptions {

  /** The `type` string a ClientException or ServerException carries. */
  datatype ErrorType =
    | ValidationError
    | AlreadyExistingUsername
    | UnknownRequest
    | AlreadyProcessed
    | UnknownError

  datatype Error =
    | ClientException(errorType: ErrorType)
    | ServerException(errorType: ErrorType)
    | ForbiddenClientException
    /** The review body is not a JSON object. */
    | JsonParsingException
}

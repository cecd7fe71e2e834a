/** Results of the ledger's operations: the JavaScript throws an Error carrying a
    message where these carry it as a value. */
module Outcomes {

  /** A computed value, or the message of the Error the JavaScript throws. */
  datatype Result<T> = Ok(value: T) | Err(message: string)

  /** Normal completion of a procedure, or the message of the Error it throws. */
  datatype Outcome = Pass | Fail(message: string)
}

/** Failure-carrying results of the service operations.

    The services signal failure by throwing; the exception handler of the
    HTTP layer turns each exception class into one response status. The model
    keeps only that classification: an operation either succeeds with a value
    or fails with one of the three error kinds below, and a failed operation
    never yields a new store (the transaction is rolled back). */
module Outcomes {

  datatype Option<+T> = None | Some(value: T)

  /** The error kinds, one per exception class the services throw. */
  datatype Error =
    | BadRequest  // IllegalArgumentException (also an unknown Status name)
    | NotFound    // NoSuchElementException
    | Conflict    // IllegalStateException

  datatype Result<+T> = Ok(value: T) | Err(error: Error)
}

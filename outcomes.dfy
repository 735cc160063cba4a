/**
 * Optional values and the outcome of an operation that may throw.
 * The failures are the Java exception classes the game code raises.
 */
module Outcomes {
  datatype Option<+T> = None | Some(value: T)

  datatype Failure =
    | UnsupportedOperation  // java.lang.UnsupportedOperationException
    | UnknownEventType      // RuntimeException("Unknown event type ...")
    | NumberFormat          // NumberFormatException from Integer.parseInt
    | IndexOutOfBounds      // indexing past the end of an array or list

  datatype Result<+T> = Ok(value: T) | Err(error: Failure)
}

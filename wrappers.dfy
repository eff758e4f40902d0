/** Failure-compatible results for the exceptions the core raises.
    Only the kind of each exception is modelled, not its message text. */
module Wrappers {

  /** The exception classes thrown by the modelled code. */
  datatype Error =
    | LogicError       // std::logic_error: a statement without a result set
    | OutOfRange       // std::out_of_range: row, column, name or arity out of range
    | RuntimeError     // std::runtime_error: empty query, unexpected status, unexpected NULL
    | InvalidArgument  // std::invalid_argument: unexpected NULL in a COPY row
    | SqlStateError    // the exception raised from the backend's SQLSTATE

  datatype Result<+T> = Ok(value: T) | Err(error: Error) {
    predicate IsFailure() { Err? }

    function PropagateFailure<U>(): Result<U>
      requires Err?
    {
      Err(error)
    }

    function Extract(): T
      requires Ok?
    {
      value
    }
  }

  /** A cell or a fetched line that may be absent (a NULL pointer in the source). */
  datatype Option<+T> = None | Some(value: T)
}

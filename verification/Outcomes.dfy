/** Results and error categories shared by the client modules. */
module Outcomes {

  datatype Option<+T> = None | Some(value: T)

  datatype Result<+T, +E> = Ok(value: T) | Err(error: E) {
    predicate IsFailure() { Err? }

    function PropagateFailure<U>(): Result<U, E>
      requires Err?
    {
      Err(error)
    }

    function Extract(): T
      requires Ok?
    {
      value
    }
  }

  /** The error categories the modelled operations can report; messages are not modelled. */
  datatype ErrorCode =
    | InvalidApiCall
    | SocketError
    | InvalidName
    | InvalidTimestamp
    | AuthError
    | ServerFlushError
    | HttpNotSupported
    | ConfigError

  /** The outcome of a call that returns no value. */
  type Status = Result<(), ErrorCode>
}

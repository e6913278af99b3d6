/** Operation statuses and the value-or-status results that metadata
    requests complete with. */
module Statuses {

  /** An operation's outcome: success, or an error code with a message. */
  datatype Status = Ok | Error(code: nat, msg: string)

  /** A status that is not a success. */
  type ErrorStatus = s: Status | s.Error? witness Error(0, "")

  /** A returned value, or the error status the request failed with. */
  datatype StatusOr<T> = Returned(value: T) | Failed(status: ErrorStatus)

  datatype Option<T> = None | Some(value: T)
}

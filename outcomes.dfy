/** Failure-carrying results, standing in for Go's `(value, error)` pairs. */
module Outcomes {

  datatype Option<+T> = None | Some(value: T)

  /** A value, or the text of the Go `error` that was returned instead. */
  datatype Outcome<+T> = Ok(value: T) | Err(message: string)
}

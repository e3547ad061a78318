// Values that may be missing, and calls that may raise.

module Outcomes {

  datatype Option<+T> = None | Some(value: T)

  datatype Result<+T, +E> = Ok(value: T) | Raise(error: E)
}

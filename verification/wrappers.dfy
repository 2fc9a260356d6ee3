/** Go's nil-able values and error returns as datatypes: a pointer that may
    be nil becomes Option, a returned `error` becomes Outcome, and a
    `(value, error)` pair becomes Result. */
module Wrappers {

  /** A value that may be missing (nil in the source). */
  datatype Option<+T> = None | Some(value: T)

  /** The outcome of a call that returns only an error: nil (Pass) or not. */
  datatype Outcome<+E> = Pass | Fail(error: E)

  /** The outcome of a call that returns a value or an error. */
  datatype Result<+R, +E> = Success(value: R) | Failure(error: E)
}

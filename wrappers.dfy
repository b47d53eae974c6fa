/** Failure-carrying values shared by the other modules: an optional value, and the
    result of an operation that may raise a Python exception. */
module Wrappers {

  datatype Option<+T> = None | Some(value: T)

  /** The value of a call that either returns normally or raises. */
  datatype Result<+T, +E> = Ok(value: T) | Err(error: E)

  /** The outcome of a call whose only effect is on state: it returns or it raises. */
  datatype Outcome<+E> = Pass | Fail(error: E)
}

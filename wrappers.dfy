/** Wrappers used across the model: a Java reference that may be
    null becomes an Option, a call that may throw becomes a Result or an Outcome. */
module Wrappers {

  datatype Option<+T> = None | Some(value: T)

  /** The value of a call that either returns normally or throws the exception `error`. */
  datatype Result<+T, +E> = Ok(value: T) | Failure(error: E)

  /** A `void` call that either completes normally or throws the exception `error`. */
  datatype Outcome<+E> = Pass | Fail(error: E)
}

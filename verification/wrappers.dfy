/** Failure-compatible value wrappers shared by the other modules. */
module Wrappers {

  datatype Option<+T> = None | Some(value: T)

  /** A computation that either succeeds with a value or fails with an error (a thrown exception or a
      rejected promise in the modelled code). */
  datatype Result<+R, +E> = Ok(value: R) | Err(error: E)
}

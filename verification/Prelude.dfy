/** Wrapper types shared by every component. */
module Prelude {

  datatype Option<+T> = None | Some(value: T)

  datatype Result<+T, +E> = Ok(value: T) | Err(error: E)

  /** The outcome of a check that yields no value. */
  datatype Outcome<+E> = Pass | Fail(error: E)
}

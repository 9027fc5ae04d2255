/** Failure-carrying result types shared by the generator modules. */
module Wrappers {

  datatype Option<+T> = None | Some(value: T)

  /** Outcome of a step that can abort the whole run. */
  datatype Result<+T, +E> = Ok(value: T) | Err(error: E)
}

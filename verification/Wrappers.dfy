/** Failure-compatible results shared by the other modules. */
module Wrappers {
  datatype Option<+T> = None | Some(value: T)

  /** A call that either returns or raises; `reason` stands for the exception. */
  datatype Result<+T, +E> = Ok(value: T) | Err(reason: E)
}

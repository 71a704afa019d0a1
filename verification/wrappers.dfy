/** Failure-carrying result types shared by the readers and writers. */
module Wrappers {

  /** A value that may be missing, e.g. a failed stream extraction. */
  datatype Option<+T> = None | Some(value: T)

  /** A successful value or an error describing why reading stopped. */
  datatype Result<+R, +E> = Ok(value: R) | Err(error: E)
}

/** Failure-compatible result types shared by the modules of this model. */
module Wrappers {

  /** A value that may be absent: JavaScript's `T | null` or `T | undefined`. */
  datatype Option<+T> = None | Some(value: T)

  /** Either a value or a thrown error. */
  datatype Result<+T, +E> = Success(value: T) | Failure(error: E)
}

/** Absent values and error results, standing for C#'s null and thrown exceptions. */
module Wrappers {

  /** A reference that may be null: `None` is null. */
  datatype Option<+T> = None | Some(value: T)

  /** The outcome of an operation that may throw instead of returning. */
  datatype Result<+R, +E> = Success(value: R) | Failure(error: E)
}

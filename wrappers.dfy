/** Failure-carrying results shared by the other modules. */
module Wrappers {

  datatype Option<+T> = None | Some(value: T)

  /** Either a value or the error the source raises or returns instead. */
  datatype Result<+R, +E> = Success(value: R) | Failure(error: E)

  /** Success or an error, for operations that return nothing. */
  datatype Outcome<+E> = Pass | Fail(error: E)
}

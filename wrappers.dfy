/** Failure-carrying result types shared by the modules of this project. */
module Wrappers {

  datatype Option<+T> = None | Some(value: T)

  /** The value of a Go or Python call that either returns or reports an error. */
  datatype Result<+R, +E> = Success(value: R) | Failure(error: E)
}

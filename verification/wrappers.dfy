/** Failure-compatible result types shared by the scraper modules. */
module Wrappers {

  datatype Option<+T> = None | Some(value: T)

  /** A value or the error that replaced it (the model of a raised exception). */
  datatype Result<+R, +E> = Success(value: R) | Failure(error: E)
}

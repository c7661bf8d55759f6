/** Absence and failure values shared by the models of the site's utilities and pages. */
module Wrappers {

  /** A value that may be absent: JavaScript's `null`/`undefined`, or `NaN` for a number. */
  datatype Option<+T> = None | Some(value: T)

  /** The outcome of a request to the wallet host: a reply, or the rejection it raised. */
  datatype Result<+T, +E> = Success(value: T) | Failure(error: E)
}

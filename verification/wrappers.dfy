/** Optional values and success/failure results, used for Ruby's `nil` and for
    the exceptions that a constructor raises. */
module Wrappers {

  /** A value that may be absent: `None` plays the part of Ruby's `nil`. */
  datatype Option<+T> = None | Some(value: T)

  /** The outcome of an operation that either returns a value or raises. */
  datatype Result<+R, +E> = Success(value: R) | Failure(error: E)
}

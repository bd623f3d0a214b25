/** Failure-carrying results: a Java method that returns a value or throws
    becomes a function or method returning one of these. */
module Wrappers {

  datatype Option<+T> = None | Some(value: T)

  /** A value, or the exception a Java method would have thrown instead. */
  datatype Result<+T, +E> = Success(value: T) | Failure(error: E)

  /** The outcome of a Java `void` method: it returned, or it threw. */
  datatype Outcome<+E> = Pass | Fail(error: E)
}

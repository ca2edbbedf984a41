/** Optional values and results with an error, shared by every module. */
module Wrappers {
  datatype Option<T> = None | Some(value: T)

  datatype Result<T, E> = Ok(value: T) | Err(error: E)

  /** The outcome of an operation that produces no value but may fail. */
  datatype Outcome<E> = Pass | Fail(error: E)

  /** The first of two alternatives that succeeds, as a backtracking matcher tries them. */
  function Or<T>(first: Option<T>, second: Option<T>): Option<T> {
    if first.Some? then first else second
  }
}

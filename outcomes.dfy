/** Optional values and success-or-error results, used for the source's `None` returns and raised errors. */
module Outcomes {

  datatype Option<T> = None | Some(value: T)

  datatype Result<T, E> = Success(value: T) | Failure(error: E)
}

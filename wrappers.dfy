/** Failure-carrying values used across the model: an absent value, a value or an error,
    and the outcome of an action that returns nothing. */
module Wrappers {

  datatype Option<T> = None | Some(value: T) {
    function GetOr(default: T): T {
      match this
      case Some(v) => v
      case None => default
    }
  }

  datatype Result<T, E> = Success(value: T) | Failure(error: E)

  /** The outcome of an asynchronous step that either resolves or rejects. */
  datatype Outcome<E> = Pass | Fail(error: E)
}

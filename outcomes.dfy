/** Optional values and the outcome of a call to the backend. */
module Outcomes {

  /** A value that may be absent (JavaScript `null` / `undefined`). */
  datatype Option<+T> = None | Some(value: T)

  /**
   * What an awaited backend call produced: the resolved value, or a rejected
   * promise (every error kind is handled the same way, so none is carried).
   */
  datatype Outcome<+T> = Success(value: T) | Failure
}

/** Optional values and the outcomes of calls that may throw, and the exceptions the hub
    throws. */
module Wrappers {

  /** A value that may be absent: JavaScript's `null` / `undefined` become `None`. */
  datatype Option<+T> = None | Some(value: T)

  /** The outcome of a call that either returns a value or throws. */
  datatype Result<+T, +E> = Success(value: T) | Failure(error: E)

  /** The outcome of a call that returns nothing or throws. */
  datatype Outcome<+E> = Pass | Fail(error: E)

  /** A JavaScript exception: its constructor and its message. */
  datatype Thrown = TypeError(message: string) | Error(message: string)
}

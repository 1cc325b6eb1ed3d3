/** Optional values and pass/fail outcomes used across the model. */
module Wrappers {

  /** A value that may be absent (`undefined` or `null` in the application). */
  datatype Option<+T> = None | Some(value: T)

  /** The outcome of an operation that yields no value but may be rejected. */
  datatype Outcome<+E> = Pass | Fail(error: E)

  /** The result of an asynchronous call: a resolved value or a rejection message. */
  datatype Fetched<+T> = Loaded(value: T) | Failed(message: string)
}

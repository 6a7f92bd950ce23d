/** Optional values and pass/fail outcomes shared by the other modules. */
module Wrappers {

  /** A value that may be absent (Python's `None`). */
  datatype Option<+T> = None | Some(value: T)

  /** The outcome of an operation that can raise but returns nothing else. */
  datatype Outcome<+E> = Pass | Fail(error: E)
}

/** Small failure-carrying datatypes shared by the other modules. */
module Wrappers {

  /** A value that may be missing: a foreign call that failed, a key that is absent. */
  datatype Option<+T> = None | Some(value: T)

  /** The outcome of an operation that returns only an error (Go's `error` result):
      `Pass` is a nil error, `Fail(e)` a non-nil one. */
  datatype Outcome<+E> = Pass | Fail(error: E)
}

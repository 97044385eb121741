/** Small failure-carrying datatypes shared by the other modules. */
module Wrappers {

  /** A value that may be missing; for a frame field, `None` stands for
      JavaScript's `null` or `undefined`. */
  datatype Option<+T> = None | Some(value: T)

  /** How a JavaScript promise ends up: resolved with a value, rejected with
      an error message, or never settled at all (an exception thrown inside an
      IndexedDB event callback escapes the promise and leaves it pending). */
  datatype Settled<+T> = Resolved(value: T) | Rejected(reason: string) | Pending
}

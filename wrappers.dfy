/** Small shared value types. */
module Wrappers {

  /** A value that may be absent (JavaScript's `undefined`/`null`). */
  datatype Option<T> = None | Some(value: T)
}

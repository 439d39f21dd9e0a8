/** Shared helper types. */
module Wrappers {
  /** A value that may be missing (JavaScript `null`/`undefined`). */
  datatype Option<T> = None | Some(value: T)
}

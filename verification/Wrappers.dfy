/** A value that may be absent (the source's `null` and `undefined`), and what a call that may throw comes to. */
module Wrappers {
  datatype Option<+T> = None | Some(value: T)

  datatype Result<+T> = Ok(value: T) | Throws
}

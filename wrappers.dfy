/** The optional value and the value-or-error shared by the whole model. */
module Wrappers {

  /** A value that may be absent (JavaScript `null`/`undefined`, a missing row). */
  datatype Option<+T> = None | Some(value: T)

  /** A value or the error that was thrown instead of producing it. */
  datatype Result<+T, +E> = Ok(value: T) | Err(error: E)
}

/** Small optional-value wrapper shared by the modules below. */
module Wrappers {
  /** A value that may be absent (Python `None`, JavaScript `null`/`undefined`). */
  datatype Option<+T> = None | Some(value: T)
}

/** A value or nothing, for pointers that may be null and answers that may be missing. */
module Wrappers {
  datatype Option<+T> = None | Some(value: T)
}

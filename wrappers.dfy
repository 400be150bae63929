/** A value that may be absent: a missing dictionary key, a `None` in the source. */
module Wrappers {
  datatype Option<+T> = None | Some(value: T)
}

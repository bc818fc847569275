/** A value that may be missing: a nil pointer, an unset reward, a failed request. */
module Wrappers {
  datatype Option<+T> = None | Some(value: T)
}

/** A value that may be missing: the null pointers, -1s and empty slots of the C code. */
module Wrappers {
  datatype Option<+T> = None | Some(value: T)
}

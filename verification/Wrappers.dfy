/** A value that may be absent: a C++ map lookup, a Python `None`, a parse that may throw. */
module Wrappers {
  datatype Option<+T> = None | Some(value: T)
}

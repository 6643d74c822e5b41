/// A value that may be absent: Java's `null` for a reference that may
/// not be set.

module Wrappers {
  datatype Option<T> = None | Some(value: T)
}

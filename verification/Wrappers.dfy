module Wrappers {
  /** A value, or the source's NULL. */
  datatype Option<+T> = None | Some(value: T)
}

module Wrappers {

  /** A value or none. */
  datatype Option<+T> = None | Some(value: T)
}

/** The possibly-absent value used across the model. */
module Wrappers {

  /** A value that may be absent: a DOM lookup that returns null, an unset store key. */
  datatype Option<+T> = None | Some(value: T)
}

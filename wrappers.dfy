/** The optional value used for state that may not have been set yet. */
module Wrappers {
  datatype Option<+T> = None | Some(value: T)
}

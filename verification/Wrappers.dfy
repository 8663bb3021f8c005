/** The optional value used wherever the source returns or stores a missing one. */
module Wrappers {
  datatype Option<+T> = None | Some(value: T)
}

/** The optional value used wherever the source tests for `None`. */
module Wrappers {
  datatype Option<+T> = None | Some(value: T)
}

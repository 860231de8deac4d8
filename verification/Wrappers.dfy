/** The absent-or-present value used wherever the program tests for nil. */
module Wrappers {
  datatype Option<+T> = None | Some(value: T)
}

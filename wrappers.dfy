/** The optional value used wherever the editor's C++ code signals "nothing found" with a sentinel. */
module Wrappers {
  datatype Option<+T> = None | Some(value: T)
}

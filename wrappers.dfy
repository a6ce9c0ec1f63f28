/** The usual optional value, used for the results of operations that can fail. */
module Wrappers {
  datatype Option<+T> = None | Some(value: T)
}

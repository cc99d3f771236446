/** The result of a lookup that may find nothing, or of a computation that may fail. */
module Wrappers {
  datatype Option<+T> = None | Some(value: T)
}

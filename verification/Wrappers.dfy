/** The optional value used across the models for Python's `None`. */
module Wrappers {
  datatype Option<+T> = None | Some(value: T)
}

/** The optional value used throughout the model in place of nil and null. */
module Wrappers {
  datatype Option<+T> = None | Some(value: T)
}

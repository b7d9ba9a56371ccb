/** The conventional optional value; `None` plays the part of Go's nil error. */
module Wrappers {
  datatype Option<+T> = None | Some(value: T)
}

/** An optional value: the model's stand-in for a Go result paired with an error. */
module Wrappers {
  datatype Option<T> = None | Some(value: T)
}

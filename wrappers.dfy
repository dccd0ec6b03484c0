/** The optional value used where the source passes a possibly-NULL pointer. */
module Wrappers {
  datatype Option<T> = None | Some(value: T)
}

/** The Option type used for values that JSON may leave out or set to null. */
module Wrappers {
  datatype Option<+T> = None | Some(value: T)
}

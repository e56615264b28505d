/** The optional value used where the service reads a Java reference that may be null. */
module Wrappers {
  datatype Option<+T> = None | Some(value: T)
}

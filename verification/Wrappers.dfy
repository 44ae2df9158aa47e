/** The failure-carrying value used where the source raises an exception or returns a null pointer. */
module Wrappers {
  datatype Option<+T> = None | Some(value: T)
}

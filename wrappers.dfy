/** Failure-compatible option type used for the "not found" outcomes of the library. */
module Wrappers {
  datatype Option<+T> = None | Some(value: T)
}

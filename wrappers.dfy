/** The optional value used for absent headers and skipped work. */
module Wrappers {
  datatype Option<+T> = None | Some(value: T)
}

/** The optional value used across the model: a date that did not parse, a label that does not read back. */
module Wrappers {
  datatype Option<+T> = None | Some(value: T)
}

/** The optional value used for a date that failed to parse and for a profit margin that is undefined. */
module Wrappers {
  datatype Option<+T> = None | Some(value: T)
}

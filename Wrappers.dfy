/** The optional value returned by the regular-expression searches: a match or none. */
module Wrappers {
  datatype Option<+T> = None | Some(value: T)
}

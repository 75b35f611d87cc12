/** The optional value used throughout: a nullable column, an absent header, a missing row. */
module Wrappers {
  datatype Option<+T> = None | Some(value: T)
}

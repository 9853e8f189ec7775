/** A value that may be missing: a row a query did not find, an optional form field. */
module Wrappers {
  datatype Option<T> = None | Some(value: T)
}

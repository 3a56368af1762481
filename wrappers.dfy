/** The optional result of a parser. */
module Wrappers {
  datatype Option<T> = None | Some(value: T)
}

/** The optional value that the source represents with a null pointer or a sentinel. */
module Wrappers {

  datatype Option<T> = None | Some(value: T)
}

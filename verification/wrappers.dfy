/** The optional value used for nullable cells and for absent results. */
module Wrappers {
  datatype Option<T> = None | Some(value: T)
}

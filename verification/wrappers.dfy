/** The optional value shared by the modules whose operations may have no answer. */
module Wrappers {
  datatype Option<T> = None | Some(value: T)
}

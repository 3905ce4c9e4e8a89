/** The optional value used for answers that may be missing and results that may fail. */
module Wrappers {
  datatype Option<T> = None | Some(value: T)
}

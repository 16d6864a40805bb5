/** The optional value used for results that may be absent (a failed fetch). */
module Wrappers {
  datatype Option<T> = None | Some(value: T)
}

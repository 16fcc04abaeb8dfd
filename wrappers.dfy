/** A value that Java would hold in a nullable reference. */
module Wrappers {
  datatype Option<T> = None | Some(value: T)
}

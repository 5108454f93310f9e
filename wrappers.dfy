/** A value that may be missing, as a nullable database column is. */
module Wrappers {
  datatype Option<+T> = None | Some(value: T)
}

/** The optional value the proxy's capability slot holds. */
module Wrappers {
  datatype Option<+T> = None | Some(value: T)
}

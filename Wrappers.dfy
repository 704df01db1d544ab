/** The optional value used for parsed query parameters and for operations that may throw. */
module Wrappers {

  datatype Option<+T> = None | Some(value: T)
}

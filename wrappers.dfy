/** The optional value used throughout the model for Go's nil results. */
module Wrappers {

  datatype Option<+T> = None | Some(value: T)
}

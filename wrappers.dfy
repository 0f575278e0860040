/** The optional value used where the Go source uses a nil pointer or a failed match. */
module Wrappers {

  datatype Option<+T> = None | Some(value: T)
}

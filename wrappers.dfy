/** The optional value the Go code expresses with nil pointers and panics. */
module Wrappers {

  datatype Option<+T> = None | Some(value: T)
}

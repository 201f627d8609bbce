/** The optional value used for Go's nil pointers and nil slices. */
module Wrappers {
  /** An optional value: Go's `nil` pointer or slice is `None`. */
  datatype Option<+T> = None | Some(value: T)
}

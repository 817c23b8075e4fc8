// The optional value used wherever the Go code returns a nil pointer or a (value, ok) pair.
module Wrappers {
  datatype Option<T> = None | Some(value: T)
}

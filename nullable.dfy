/** A value that may be absent: a C pointer that may be NULL, a Go error that may be nil. */
module Nullable {
  datatype Option<+T> = None | Some(value: T)
}

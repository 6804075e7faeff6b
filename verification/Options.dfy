/** A value that may be absent: Go's nil pointers, missing map entries and failures. */
module Options {
  datatype Option<+T> = None | Some(value: T)
}

/** A value that may be missing: Go's nil for a pointer or an interface. */
module Options {
  datatype Option<+T> = None | Some(value: T)
}

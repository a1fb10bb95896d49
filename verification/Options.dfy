/** The optional value shared by the modules: Go's nil pointer or "value, ok" pair. */
module Options {
  datatype Option<+T> = None | Some(value: T)
}

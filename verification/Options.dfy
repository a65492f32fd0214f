/** The optional values used throughout: JavaScript's `undefined` or `null`, Go's nil. */
module Options {
  datatype Option<+T> = None | Some(value: T)
}

/** The optional values used across the project in place of nil. */
module Options {
  datatype Option<+T> = None | Some(value: T)
}

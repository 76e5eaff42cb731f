/** An optional value, for Go's extra results and nil. */
module Options {
  datatype Option<+T> = None | Some(value: T)
}

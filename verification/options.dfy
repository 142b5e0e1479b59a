/** An optional value, for a response property that may be missing. */
module Options {
  datatype Option<+T> = None | Some(value: T)
}

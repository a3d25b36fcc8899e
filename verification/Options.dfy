/** A value or none: what is found, or what a throwing operation returns. */
module Options {
  datatype Option<+T> = None | Some(value: T)
}

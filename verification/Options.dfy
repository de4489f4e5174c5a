/** `null` and `undefined` of the source. */
module Options {
  datatype Option<+T> = None | Some(value: T)
}

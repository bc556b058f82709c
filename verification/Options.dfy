/** An optional value. */
module Options {
  datatype Option<+V> = None | Some(value: V)
}

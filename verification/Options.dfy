/** An optional value: NULL or a pointer to one. */
module Options {
  datatype Option<+T> = None | Some(value: T)
}

/** A value or its absence: a null pointer, an error return. */
module Options {
  datatype Option<+T> = None | Some(value: T)
}

/** A value or none, in place of a null pointer or an error return. */
module Options {
  datatype Option<+T> = None | Some(value: T)
}

/** The optional value used throughout in place of a null pointer or an `end()` iterator. */
module Options {
  datatype Option<+T> = None | Some(value: T)
}

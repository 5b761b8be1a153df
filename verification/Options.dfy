/** The optional value used where the source returns a null pointer or a missing result. */
module Options {
  datatype Option<+T> = None | Some(value: T)
}

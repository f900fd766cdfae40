/** The optional value used for unset sequence numbers and failed parses. */
module Options {
  datatype Option<T> = None | Some(value: T)
}

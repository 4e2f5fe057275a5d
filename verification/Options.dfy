/** The nullable values of the source: a column or a lookup that may hold nothing. */
module Options {
  datatype Option<+T> = None | Some(value: T)
}

/** The optional value used throughout: Python's `X | None`. */
module Options {
  datatype Option<+T> = None | Some(value: T)
}

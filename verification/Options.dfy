/** The optional result used for the source's `None` returns. */
module Options {
  datatype Option<+T> = None | Some(value: T)
}

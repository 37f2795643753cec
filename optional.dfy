/** The Some/None wrapper used wherever the source has `None` as a value. */
module Optional {
  datatype Option<+T> = None | Some(value: T)
}

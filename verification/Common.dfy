/** What several models share. */
module Common {
  datatype Option<+T> = None | Some(value: T)
}

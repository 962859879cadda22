/** A value that may be missing: Python's None, an absent key, a raised exception. */
module Options {
  datatype Option<+T> = None | Some(value: T)
}

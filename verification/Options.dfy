/** A value that may be absent: Python's None. */
module Options {
  datatype Option<T> = None | Some(value: T)
}

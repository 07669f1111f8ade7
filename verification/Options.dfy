/** A value that may be absent: Python's None, Go's nil or a missing key. */
module Options {
  datatype Option<+T> = None | Some(value: T)
}

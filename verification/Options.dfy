/** Results of operations that may fail by throwing or returning false. */
module Options {
  datatype Option<+T> = None | Some(value: T)
}

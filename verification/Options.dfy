/** A value that may be missing: a null pointer, or the result of a search that failed. */
module Options {
  datatype Option<+T> = None | Some(value: T)
}

/** A result that may be missing: an error return, a nil, a failed lookup. */
module Options {
  datatype Option<+T> = None | Some(value: T)
}

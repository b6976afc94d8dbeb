/** A value that may be missing: nil, NULL, or the ok of a map lookup. */
module Options {
  datatype Option<+T> = None | Some(value: T)
}

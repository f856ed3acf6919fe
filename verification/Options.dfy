module Options {
  /** A value, or nothing where the source returns an error or does not return at all. */
  datatype Option<+T> = None | Some(value: T)
}

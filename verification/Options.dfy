module Options {
  /** A value that may be missing; what is missing where it is None is said at each use. */
  datatype Option<+T> = None | Some(value: T)
}

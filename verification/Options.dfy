/** A value that may be missing: null and undefined in the repository's rows and results. */
module Options {
  datatype Option<+T> = None | Some(value: T)
}

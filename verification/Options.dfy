/** A value that may be missing: a map lookup or a nullable field. */
module Options {
  datatype Option<+T> = None | Some(value: T)
}

/** Java's nullable references, for the values the panel tests against null. */
module Options {
  datatype Option<+T> = None | Some(value: T)
}

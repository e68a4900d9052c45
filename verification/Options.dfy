/** A value that may be missing, as in std::optional. */
module Options {
  datatype Option<+T> = None | Some(value: T)
}

/** The optional value used throughout the model for lookups and partial results. */
module Options {
  datatype Option<+T> = None | Some(value: T)
}

/** The optional values that nullable columns and missing inputs become. */
module Options {
  datatype Option<+T> = None | Some(value: T)
}

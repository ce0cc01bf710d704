/** The optional values that the program returns as nulls or as std::optional. */
module Options {
  datatype Option<+T> = None | Some(value: T)
}

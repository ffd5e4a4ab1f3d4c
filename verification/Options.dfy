/** The optional value used throughout the model for SQL NULL and Python None. */
module Options {
  datatype Option<+T> = None | Some(value: T)
}

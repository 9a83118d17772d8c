/** The optional values of the program: `None` where the source holds Python's `None`. */
module Optional {
  datatype Option<+T> = None | Some(value: T)
}

/** The optional value returned by every lookup of the model. */
module Options {
  datatype Option<+T> = None | Some(value: T)
}

/** The optional values the modelled programs return. */
module Options {
  datatype Option<+T> = None | Some(value: T)
}

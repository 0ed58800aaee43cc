/** The absence or presence of a result. */
module Options {
  datatype Option<+T> = None | Some(value: T)
}

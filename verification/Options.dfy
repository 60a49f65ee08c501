/** A value or nothing, as the null results of the C functions. */
module Options {
  datatype Option<+T> = None | Some(value: T)
}

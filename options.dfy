/** The conventional optional value, used for "no statement produced" and for decoders. */
module Options {
  datatype Option<+T> = None | Some(value: T)
}

/** The optional value used by the decoders and parsers of this model. */
module Options {

  datatype Option<+T> = None | Some(value: T)
}

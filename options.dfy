/** The usual Some/None wrapper, used for absent values and failed parses. */
module Options {

  datatype Option<+T> = None | Some(value: T)
}

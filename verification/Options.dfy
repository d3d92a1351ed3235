/** A value that may be missing: the program's nil results and error returns. */
module Options {
  datatype Option<+T> = None | Some(value: T)
}

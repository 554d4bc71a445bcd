/** The type of something that may be missing: a file, a rune past the end, a certificate. */
module Options {
  datatype Option<+T> = None | Some(value: T)
}

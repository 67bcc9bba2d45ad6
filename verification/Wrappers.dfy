/** Small types that several modules share. */
module Wrappers {

  datatype Option<+T> = None | Some(value: T)

  /** Whitespace in the C locale. */
  predicate IsSpace(c: char) {
    c == ' ' || '\t' <= c <= '\r'
  }
}

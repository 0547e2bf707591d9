/** The optional value used for "absent" cells, failed parses and missing matches. */
module Wrappers {
  datatype Option<+T> = None | Some(value: T)
}

/** The optional value used for lookups and partial parses. */
module Wrappers {

  datatype Option<+T> = None | Some(value: T)
}

/** The optional value used for absent fields and missing cache entries. */
module Wrappers {

  datatype Option<+T> = None | Some(value: T)
}

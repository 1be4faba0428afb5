/** The optional value used for "key absent" in error-map lookups. */
module Wrappers {

  datatype Option<+T> = None | Some(value: T)

}

/** Result of a lookup that may fail, as the source signals with NULL or -1. */
module Wrappers {
  datatype Option<+T> = None | Some(value: T)
}

/** The optional value used where the source either produces something or raises. */
module Wrappers {
  datatype Option<+T> = None | Some(value: T)
}

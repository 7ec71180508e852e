/** Option, for the places where the source has `null` or an absent value. */
module Wrappers {
  datatype Option<+T> = None | Some(value: T)
}

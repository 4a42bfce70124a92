/** The conventional optional value, used for a conversion that may throw. */
module Wrappers {
  datatype Option<+T> = None | Some(value: T)
}

/** The optional value used where the scripts produce NaN, null or a failed parse. */
module Wrappers {
  datatype Option<T> = None | Some(value: T)
}

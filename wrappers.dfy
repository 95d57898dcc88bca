/** Small Option type used for the outcome of parsing an address pool. */
module Wrappers {
  datatype Option<T> = None | Some(value: T)
}

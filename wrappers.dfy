/** The result of an operation that can fail: here, a Rust slice or index
    that would panic yields None. */
module Wrappers {
  datatype Option<T> = None | Some(value: T)
}

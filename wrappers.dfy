/** Rust's `Option<T>`, used for the command-line options and for the `vec[4]` lookup. */
module Wrappers {

  datatype Option<+T> = None | Some(value: T)
}

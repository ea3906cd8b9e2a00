/** Rust's Option, as used throughout the model. */
module Wrappers {

  datatype Option<+T> = None | Some(value: T)

}

/** The Some/None datatype that stands for Rust's `Option`. */
module Wrappers {

  datatype Option<+T> = None | Some(value: T)

}

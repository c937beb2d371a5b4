/** Optional values: `None` stands for Rust's `None`, and for the panic of an `unwrap` on it. */
module Wrappers {
  datatype Option<+T> = None | Some(value: T)
}

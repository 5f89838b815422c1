/** An optional value: Rust's `Option`, and a nullable column. */
module Options {
  datatype Option<+T> = None | Some(value: T)
}

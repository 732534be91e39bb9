/** An optional value: `None` where the source returns Rust's `None`. */
module Optional {

  datatype Option<T> = None | Some(value: T)
}

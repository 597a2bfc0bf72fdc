/** Java's nullable references to immutable values (a `String` that may be
    `null`) are written as `Option` values: `None` stands for `null`. */
module Optional {
  datatype Option<+T> = None | Some(value: T)
}

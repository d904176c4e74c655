/** A nullable value: Kotlin's `T?` and Java's nullable references. */
module Options {
  datatype Option<+T> = None | Some(value: T)
}

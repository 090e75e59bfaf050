/** A value that may be missing: `nil`, an empty buffer, or an operation that was refused. */
module Options {
  datatype Option<T> = None | Some(value: T)
}

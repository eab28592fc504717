/** A value that may be absent: JavaScript's `undefined`/`null` for a field or a guard that failed. */
module Optional {
  datatype Option<T> = None | Some(value: T)
}

/** A value that may be absent: a null pointer or a missing table entry. */
module Optional {
  datatype Option<+T> = None | Some(value: T)
}

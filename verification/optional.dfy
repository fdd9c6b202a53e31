/** An optional value, for lookups and builder results that may be absent. */
module Optional {
  datatype Option<T> = None | Some(value: T)
}

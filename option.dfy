/** An optional value, for lookups that may find nothing and inputs that may be absent. */
module Optional {
  datatype Option<T> = None | Some(value: T)
}

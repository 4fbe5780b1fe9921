/** An optional value: the model's stand-in for a reference that may be null. */
module Options {
  datatype Option<T> = None | Some(value: T)
}

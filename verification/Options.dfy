/** A value or none, for results that the code marks with a null, -1 or a default. */
module Options {
  datatype Option<T> = None | Some(value: T)
}

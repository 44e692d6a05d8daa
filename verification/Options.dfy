/** A value or its absence, for the source's nil results. */
module Options {
  datatype Option<T> = None | Some(value: T)
}

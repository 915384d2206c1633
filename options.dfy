/** Optional values: Python's `Optional[T]`, with `None` as absence. */
module Options {
  datatype Option<+T> = None | Some(value: T)
}

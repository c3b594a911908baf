/** Optional values: the source's `None` / value pairs. */
module Options {
  datatype Option<+T> = None | Some(value: T)
}

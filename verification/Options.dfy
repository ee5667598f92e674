/** Optional values, where the program returns an error code or a null pointer. */
module Options {
  datatype Option<+T> = None | Some(value: T)
}

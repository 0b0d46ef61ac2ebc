/** Optional values: an absent command-line argument, a file that could not be parsed. */
module Options {
  datatype Option<+T> = None | Some(value: T)
}

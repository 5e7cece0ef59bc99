/** Optional values: the model's form of Go's nil pointers and (value, ok) pairs. */
module Options {
  datatype Option<+T> = None | Some(value: T)
}

// A value that may be missing: a NULL result, or an argument not passed.
module Options {
  datatype Option<+T> = None | Some(value: T)
}

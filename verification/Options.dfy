// An optional value: the zero time, a missing map entry, a nil pointer.
module Options {
  datatype Option<+T> = None | Some(value: T)
}

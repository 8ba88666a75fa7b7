/** A value that may be missing: a Go result with an ok flag, or a pointer that may be nil. */
module Options {

  datatype Option<T> = None | Some(value: T)
}

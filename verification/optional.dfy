/** A value that may be absent. It stands for Go's nil: a nil error, a
    missing JSON field, a failed parse. */
module Optional {
  datatype Option<T> = None | Some(value: T)
}

/** The one container type the components share: a Go pointer or interface value that may be nil. */
module Options {
  datatype Option<+T> = None | Some(value: T)
}

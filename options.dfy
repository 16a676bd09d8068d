// A value that may be absent: a lookup that finds nothing, a table row that
// is not emitted.

module Options {

  datatype Option<T> = None | Some(value: T)
}

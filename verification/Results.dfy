/** The result codes of the b-tree code. */
module Results {
  datatype Rc = OK | CORRUPT
}

/** A value that may be missing. */
module Options {
  datatype Option<T> = None | Some(value: T)
}

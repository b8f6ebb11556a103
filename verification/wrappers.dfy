module Wrappers {

  /** A nullable column, a Go (value, ok) pair, or a result whose error carries no data. */
  datatype Option<+T> = None | Some(value: T)
}

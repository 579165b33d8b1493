/** The failure-carrying result used where the Rust code panics on data
    it cannot check up front (a missing reverse connection, a length that
    does not fit in a byte). */
module Wrappers {
  datatype Option<+T> = None | Some(value: T)
}

/** The optional value used for Python's `None`-able parameters. */
module Wrappers {

  datatype Option<+T> = None | Some(value: T)
}

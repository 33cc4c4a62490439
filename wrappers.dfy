/** The optional-value datatype used for Python's `None` and for partial parsers. */
module Wrappers {

  datatype Option<+T> = None | Some(value: T)
}

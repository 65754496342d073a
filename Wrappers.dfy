/** The optional-value type used wherever the source reads a value that may
    be `undefined` or `null`. */
module Wrappers {

  datatype Option<+T> = None | Some(value: T)
}

/** Option, the value-or-nothing type used for Python's `None`. */
module Wrappers {

  datatype Option<+T> = None | Some(value: T)
}

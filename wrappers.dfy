/** Python's optional values (`None` or a value), as a datatype. */
module Wrappers {
  datatype Option<+T> = None | Some(value: T)
}

/** Option, the Python `None`-or-value result used by the classifier. */
module Wrappers {
  datatype Option<+T> = None | Some(value: T)
}

/** Python's `None`-or-value, used wherever the panel stores "an ID or nothing". */
module Wrappers {

  datatype Option<+T> = None | Some(value: T)

}

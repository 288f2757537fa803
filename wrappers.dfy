/** Python's "value or None", used wherever the application returns None for
    "not computable" instead of raising. */
module Wrappers {

  datatype Option<+T> = None | Some(value: T)
}

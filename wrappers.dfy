/** Python's `Optional[T]`: `None` or a value. */
module Wrappers {

  datatype Option<+T> = None | Some(value: T)
}

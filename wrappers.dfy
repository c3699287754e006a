/** Option stands for a C pointer that may be NULL: None is NULL. */
module Wrappers {
  datatype Option<+T> = None | Some(value: T)
}

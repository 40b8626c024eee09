/** The optional value shared by the date parser and the dialogs. */
module Wrappers {
  datatype Option<T> = None | Some(value: T)
}

/** The optional value the model uses for the result of parsing a text field. */
module Wrappers {
  datatype Option<+T> = None | Some(value: T)
}

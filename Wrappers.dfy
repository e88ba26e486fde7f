/** The optional value used where the font tools return a record or nothing. */
module Wrappers {
  datatype Option<+T> = None | Some(value: T)
}

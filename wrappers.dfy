/** The optional value used for "no selection", "input ended" and "does not parse". */
module Wrappers {

  datatype Option<+T> = None | Some(value: T)
}

/** The one result type the model's lookups, parsers and `null` answers share. */
module Wrappers {

  datatype Option<+T> = None | Some(value: T)
}

/** The optional value used for every field the source types as `T | null`. */
module Wrappers {

  datatype Option<+T> = None | Some(value: T)
}

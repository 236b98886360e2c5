/** The optional value used wherever the source has `null` or skips work. */
module Wrappers {

  datatype Option<+T> = None | Some(value: T)
}

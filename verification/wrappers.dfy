/** The optional value used wherever the source uses `None` or an `inf` sentinel. */
module Wrappers {

  datatype Option<+T> = None | Some(value: T)
}

/** The optional value used wherever the source may answer NULL, None or undefined. */
module Wrappers {

  datatype Option<+T> = None | Some(value: T)
}

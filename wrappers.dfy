/** The optional value used wherever the C# source has a nullable string or a failed regex match. */
module Wrappers {

  datatype Option<+T> = None | Some(value: T)
}

/** The optional value used wherever the Python code returns a string or `None`. */
module Wrappers {

  datatype Option<+T> = None | Some(value: T)

}

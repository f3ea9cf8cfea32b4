/** The optional value that stands for Go's nil values and "not found" results. */
module Wrappers {

  datatype Option<T> = None | Some(value: T)
}

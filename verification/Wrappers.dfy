/** The usual option type; `None` stands for Go's nil error or zero value. */
module Wrappers {
  datatype Option<+T> = None | Some(value: T)
}

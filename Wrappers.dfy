/** The Some/None datatype used for Go's nil-able results and for parses that can fail. */
module Wrappers {

  datatype Option<+T> = None | Some(value: T)
}

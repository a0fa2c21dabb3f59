/** The absence signal every failed resolution collapses to. */
module Wrappers {

  datatype Option<+T> = None | Some(value: T)
}

/** The source's `None` results ("skip this device") and its pandas null cells. */
module Wrappers {

  datatype Option<+T> = None | Some(value: T)
}

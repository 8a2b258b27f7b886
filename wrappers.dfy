/** The optional value that `Array.prototype.find` returns (undefined or the element). */
module Wrappers {
  datatype Option<+T> = None | Some(value: T)
}

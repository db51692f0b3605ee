/** An optional value: the model of a JavaScript field that may be `null`. */
module Wrappers {
  datatype Option<+T> = None | Some(value: T)
}

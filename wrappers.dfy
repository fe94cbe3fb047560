/** The optional value: a JavaScript `undefined` (or a NaN route parameter) is `None`. */
module Wrappers {
  datatype Option<+T> = None | Some(value: T)
}

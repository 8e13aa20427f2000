/** An optional value: `None` stands for JavaScript's `undefined` (or NaN, for numbers). */
module Wrappers {
  datatype Option<+T> = None | Some(value: T)
}

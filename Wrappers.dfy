/** An optional value: JavaScript's `undefined` (an absent field, a missing argument)
    is `None`. */
module Wrappers {

  datatype Option<+T> = None | Some(value: T)
}

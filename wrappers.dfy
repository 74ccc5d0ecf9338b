/** The optional value used for JavaScript's `null`/`undefined` results and for
    `NaN` from `parseInt`. */
module Wrappers {

  datatype Option<+T> = None | Some(value: T)
}

/** The absent-or-present value used wherever the source may hold `undefined` or `NaN`. */
module Wrappers {

  datatype Option<+T> = None | Some(value: T)
}

/** The absent-or-present value that stands for JavaScript's `string | null` results. */
module Wrappers {

  datatype Option<+T> = None | Some(value: T)
}

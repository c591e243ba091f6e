/** The absent-or-present value the model uses for JavaScript's `null`
    and for an operation that rejects its input. */
module Wrappers {

  datatype Option<+T> = None | Some(value: T)
}

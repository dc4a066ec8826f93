/** The optional-value datatype shared by the other modules. */
module Wrappers {

  /** `None` stands for Python's `None`, `Some(v)` for a present value. */
  datatype Option<+T> = None | Some(value: T)
}

/** The optional-value type shared by the model. */
module Wrappers {

  /** `None` stands for JavaScript's `null`/`undefined` results of a lookup or a parse. */
  datatype Option<+T> = None | Some(value: T)
}

/** The optional-value datatype shared by the parsers of this model. */
module Wrappers {

  /** `None` stands for JavaScript's `null`, `NaN` or a thrown parse error, depending on the caller. */
  datatype Option<+T> = None | Some(value: T)
}

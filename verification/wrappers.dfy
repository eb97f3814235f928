/** A minimal optional-value datatype shared by the modules of this model. */
module Wrappers {

  /** `None` stands for JavaScript's `undefined`/`null` or for "no match". */
  datatype Option<+T> = None | Some(value: T)
}

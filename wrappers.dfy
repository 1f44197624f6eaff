/** Small value wrappers shared by the other modules. */
module Wrappers {

  /** A value that may be absent, as JavaScript's `undefined` is for an
      object property that was never set. */
  datatype Option<+T> = None | Some(value: T)
}

/** The optional-value datatype used wherever the source may produce `undefined`,
    `null` or a thrown exception instead of a value. */
module Wrappers {

  datatype Option<+T> = None | Some(value: T)
}

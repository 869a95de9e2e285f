/** The optional value used wherever the front end reads a value that may be
    `null`, `undefined` or absent from a lookup table. */
module Wrappers {

  datatype Option<+T> = None | Some(value: T)
}

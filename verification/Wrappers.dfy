/** The optional value used for nullable strings, lookups and reads that may fail, and bytes. */
module Wrappers {

  datatype Option<+T> = None | Some(value: T)

  type Byte = n: nat | n < 256
}

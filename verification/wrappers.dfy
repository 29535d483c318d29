/** Small datatypes standing in for JavaScript's absent values. */
module Wrappers {

  /** A value that may be missing: `null` or `undefined` on one side, a value on the other. */
  datatype Option<+T> = None | Some(value: T)

  /** A key of an object literal: either never assigned, or assigned a value. */
  datatype Field<+T> = Absent | Present(value: T)
}

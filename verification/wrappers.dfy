/** Small result types shared by the model of the storage bridge. */
module Wrappers {

  /** A value that may be absent (`undefined` or `null` in the source). */
  datatype Option<+T> = None | Some(value: T)

  /** How a JavaScript step ended: it returned a value, or it threw. */
  datatype Completion<+T> = Threw | Returned(value: T)
}

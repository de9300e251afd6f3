/** Values that may be missing. */
module Wrappers {

  datatype Option<+T> = None | Some(value: T)

  /** A member of a JSON object: missing, of the wrong form, or fine. */
  datatype Field<+T> = Absent | Invalid | Given(value: T)
}

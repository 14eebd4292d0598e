/** The optional values used for the nullable fields of the data model. */
module Wrappers {

  /** `None` stands for a JavaScript `null`. */
  datatype Option<+T> = None | Some(value: T)
}

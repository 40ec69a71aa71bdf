/** The optional-value datatype shared by the catalog and the poster response. */
module Wrappers {

  datatype Option<+T> = None | Some(value: T)
}

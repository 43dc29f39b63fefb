/** The optional value used for nullable columns (a root's parent, contact fields)
    and for lookups that may find nothing. */
module Wrappers {

  datatype Option<+T> = None | Some(value: T)
}

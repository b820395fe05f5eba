/** The optional value used for lookups that may fail and for book queries on an empty side. */
module Wrappers {
  datatype Option<+T> = None | Some(value: T)
}

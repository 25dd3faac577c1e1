/** Optional values: SQL NULL for a query column, and failure for a parser. */
module Wrappers {

  datatype Option<+T> = None | Some(value: T)
}

/** The "may be absent" value the analytics functions return when a column or table is missing. */
module Wrappers {
  datatype Option<+T> = None | Some(value: T)
}

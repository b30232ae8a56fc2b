/** A value that may be absent: NULL in the database, None in the program. */
module Wrappers {

  datatype Option<+T> = None | Some(value: T)
}

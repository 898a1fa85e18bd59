/** Option type used for values that may be missing: a feed that could not be
    fetched, a page whose text could not be read. */
module Wrappers {

  datatype Option<+T> = None | Some(value: T)
}

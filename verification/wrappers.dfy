/** Optional values, used where the engines may find nothing (a file that
    cannot be opened). */
module Wrappers {

  datatype Option<+T> = None | Some(value: T)
}

/** Optional values, used where the C code returns NULL or -1 for "absent". */
module Wrappers {

  datatype Option<+T> = None | Some(value: T)
}

/** Optional values: `None` stands for the C code's NULL / "no result". */
module Wrappers {

  datatype Option<+T> = None | Some(value: T)
}

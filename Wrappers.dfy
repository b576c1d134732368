/** Optional values: the model's stand-in for a pandas NaN. */
module Wrappers {

  datatype Option<+T> = None | Some(value: T)

}

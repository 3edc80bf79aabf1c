/** Optional results, used where the mission script would raise instead of returning. */
module Wrappers {

  datatype Option<T> = None | Some(value: T)

}

/** Optional values, shared by the validation verdict and the mapping-section
    lookup. */
module Wrappers {

  datatype Option<T> = None | Some(value: T)
}

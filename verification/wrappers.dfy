/** Optional values: the model's stand-in for Python's `None`. */
module Wrappers {

  /** `None` or a present value; used for the genesis block's missing predecessor. */
  datatype Option<+T> = None | Some(value: T)
}

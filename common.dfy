/** Optional values: Python's `None` or a present value. */
module Common {

  datatype Option<T> = None | Some(value: T)

}

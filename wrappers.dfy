/** Optional values: `None` stands for Python's `None` in a slot or a lookup. */
module Wrappers {

  datatype Option<+T> = None | Some(value: T)
}

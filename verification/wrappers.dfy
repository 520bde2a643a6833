/** Optional values: `None` stands for Python's missing value and for JavaScript's
    `null`/`undefined`/`NaN` wherever the modelled code tests for them. */
module Wrappers {

  datatype Option<+T> = None | Some(value: T)
}

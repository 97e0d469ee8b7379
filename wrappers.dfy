/** Optional values, for JavaScript's `undefined`/`null` and for a regular
    expression that may not match. */
module Wrappers {

  datatype Option<+T> = None | Some(value: T)
}

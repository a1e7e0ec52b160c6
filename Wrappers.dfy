/** Optional values, standing for JavaScript's `undefined`/`null` results and for
    browser built-ins that throw. */
module Wrappers {

  datatype Option<+T> = None | Some(value: T)

}

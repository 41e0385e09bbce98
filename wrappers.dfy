/** Optional values: JavaScript's `null`/`undefined`, and the outcome of an
    operation that can throw (`None` is the thrown TypeError). */
module Wrappers {

  datatype Option<+T> = None | Some(value: T)
}

/** The optional value used by both modules: `None` where JavaScript would give
    `undefined` or a reader finds nothing to rebuild. */
module Wrappers {

  datatype Option<+T> = None | Some(value: T)
}

/** The optional-value datatype used for `attr('href')` (which may be absent) and for
    URL resolution (which may throw). */
module Wrappers {

  datatype Option<+T> = None | Some(value: T)
}

/** Python's `None`-or-value, as used for `self.event`, a message's `uid`
    and optional event targets. */
module Wrappers {

  datatype Option<T> = None | Some(value: T)
}

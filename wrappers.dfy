/** The optional value used for `None`-able results: `int()` that may fail,
    the selected id, and an export that may write nothing. */
module Wrappers {
  datatype Option<T> = None | Some(value: T)
}

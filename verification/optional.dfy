/**
 * A value that may be absent: Python's `None` in the store's lookups and
 * JavaScript's `null` for the page's current user.
 */
module Optional {
  datatype Option<T> = None | Some(value: T)
}

/** The optional value used throughout the model: Python's `None` or a value. */
module Wrappers {

  datatype Option<+T> = None | Some(value: T)

  /** `d.get(key, default)` once the lookup is an Option. */
  function GetOr<T>(o: Option<T>, default: T): T
  {
    if o.Some? then o.value else default
  }
}

/** Value shapes shared by every module: JavaScript's optional values, the
    outcome of a call that may throw, and the clock. */
module Common {

  /** A value that may be `undefined` (or `null`, where the two behave alike). */
  datatype Option<+T> = None | Some(value: T)

  /** The outcome of a call that either returns a value or throws. */
  datatype Result<+T, +E> = Ok(value: T) | Err(error: E)

  /** A reading of the clock (`new Date()`), in seconds since the epoch. */
  type Time = int

  /** JavaScript truthiness of an optional string: defined and not empty. */
  predicate Truthy(s: Option<string>) {
    s.Some? && s.value != ""
  }

  /** The value of an optional argument after its default applies; a JavaScript
      default parameter replaces `undefined` only. */
  function OrDefault<T>(arg: Option<T>, default: T): (r: T)
    ensures arg.Some? ==> r == arg.value
    ensures arg.None? ==> r == default
  {
    if arg.Some? then arg.value else default
  }
}

/**
 * Go values that may be nil — a `*zap.Logger`, an `error`, a
 * `context.Context` — as an optional value: `None`, or a present value.
 */
module Nilable {

  datatype Option<T> = None | Some(value: T) {

    /** What Go's `if x == nil { x = d }` leaves in x. */
    function ValueOr(d: T): (r: T)
      ensures this.Some? ==> r == value
      ensures this.None? ==> r == d
    {
      if this.Some? then value else d
    }
  }
}

/** Values that may be missing. */
module Options {
  datatype Option<+T> = None | Some(value: T)

  function GetOr<T>(o: Option<T>, default: T): T {
    if o.Some? then o.value else default
  }

  /** A 1-based position that defaults to 1. */
  ghost predicate IsPosition(given: Option<int>, position: int) {
    (given.Some? ==> position == given.value) && (given.None? ==> position == 1)
  }
}

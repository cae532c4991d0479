/** Shared vocabulary of the simulator: optional values, instants and the
    real-valued Math.min / Math.max the component relies on. */
module Basics {

  /** A value that may be absent; a trade's pnl is `null` for a purchase. */
  datatype Option<T> = None | Some(value: T)

  /** A point in time, in milliseconds since the epoch as `Date.now()` reports it.
      The model only stores instants and never computes with them. */
  type Instant = int

  function Min(x: real, y: real): (m: real)
    ensures m <= x && m <= y
    ensures m == x || m == y
  {
    if x <= y then x else y
  }

  function Max(x: real, y: real): (m: real)
    ensures x <= m && y <= m
    ensures m == x || m == y
  {
    if x <= y then y else x
  }
}

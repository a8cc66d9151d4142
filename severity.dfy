/**
 * Severity levels. The constants live in a part of the `medik` package that
 * is not part of this model; the call sites compare them as ordered integers
 * with OK the smallest, so they are modelled as 0 < 1 < 2.
 */
module Severity {

  const OK: int := 0
  const WARNING: int := 1
  const ERROR: int := 2

  /** The range of `medik.LogLevelFromStr`. */
  type Level = l: int | OK <= l <= ERROR

  /** Go's built-in `max` on two ints. */
  function Max(a: int, b: int): (m: int)
    ensures m >= a && m >= b
    ensures m == a || m == b
  {
    if a >= b then a else b
  }
}

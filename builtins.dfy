/** Python's numeric builtins as main.py uses them on floats: `int()`, `min()` and `max()`. */
module Builtins {

  /** Python's `int()` on a float truncates toward zero (it is not `floor`). */
  function Trunc(r: real): (n: int)
    ensures 0.0 <= r ==> n as real <= r < n as real + 1.0
    ensures r < 0.0 ==> n as real - 1.0 < r <= n as real
  {
    if 0.0 <= r then r.Floor else -((-r).Floor)
  }

  /** Truncation and floor differ on negative non-integers. */
  lemma TruncDiffersFromFloor()
    ensures Trunc(-0.5) == 0 && (-0.5).Floor == -1
  {
  }

  /** For a non-negative index `i`, `int()` and `floor` put `i` on the same side of
      a span boundary: the difference never reaches a cell of the temperature array. */
  lemma TruncAgreesWithFloorFromZero(r: real, i: int)
    requires 0 <= i
    ensures (Trunc(r) <= i) == (r.Floor <= i)
    ensures (i < Trunc(r)) == (i < r.Floor)
  {
  }

  /** `max(a, b)` */
  function Max(a: real, b: real): (r: real)
    ensures a <= r && b <= r
    ensures r == a || r == b
  {
    if a < b then b else a
  }

  /** `min(a, b)` */
  function Min(a: real, b: real): (r: real)
    ensures r <= a && r <= b
    ensures r == a || r == b
  {
    if b < a then b else a
  }
}

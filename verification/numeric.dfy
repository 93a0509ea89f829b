/** Python's numeric conversions written out on exact reals: `int(v)` on a
    float truncates toward zero, and `round(v, n)` rounds to the nearest
    multiple of 10^-n, ties to the even neighbour. */
module Numeric {

  /** `int(v)` for a float `v`: the integer part, truncated toward zero. */
  function Trunc(v: real): (n: int)
    ensures v >= 0.0 ==> 0 <= n && n as real <= v < n as real + 1.0
    ensures v < 0.0 ==> n <= 0 && n as real - 1.0 < v <= n as real
  {
    if v >= 0.0 then v.Floor else -((-v).Floor)
  }

  /** The integer nearest to `y`, ties to the even one. */
  function NearestEven(y: real): (n: int)
    ensures -0.5 <= n as real - y <= 0.5
    ensures n as real - y == 0.5 || n as real - y == -0.5 ==> n % 2 == 0
  {
    var f := y.Floor;
    var frac := y - f as real;
    if frac > 0.5 then f + 1
    else if frac < 0.5 then f
    else if f % 2 == 0 then f
    else f + 1
  }

  /** `round(v, d)` with `scale` = 10^d: the nearest multiple of 1/scale. */
  function RoundTo(v: real, scale: nat): (r: real)
    requires scale > 0
    ensures r * scale as real == NearestEven(v * scale as real) as real
  {
    NearestEven(v * scale as real) as real / scale as real
  }

  /** Rounding moves a value by at most half a unit of the last kept digit. */
  lemma RoundToClose(v: real, scale: nat)
    requires scale > 0
    ensures -0.5 <= (RoundTo(v, scale) - v) * scale as real <= 0.5
  {
    var r := RoundTo(v, scale);
    assert r * scale as real == NearestEven(v * scale as real) as real;
    assert (r - v) * scale as real == r * scale as real - v * scale as real;
  }
}

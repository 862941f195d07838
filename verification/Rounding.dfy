/** Decimal rounding, half to even, in exact arithmetic. */
module Rounding {

  function RoundToInt(x: real): int {
    var f := x.Floor;
    var rest := x - f as real;
    if rest < 0.5 || (rest == 0.5 && f % 2 == 0) then f else f + 1
  }

  /** `round(x, d)` with `scale` ten to the power d. */
  function RoundTo(x: real, scale: real): real
    requires scale > 0.0
  {
    RoundToInt(x * scale) as real / scale
  }

  /** A tie goes to the even neighbour. */
  lemma TieToEven(n: int)
    ensures RoundToInt(n as real + 0.5) % 2 == 0
    ensures RoundToInt(n as real) == n
  {
    assert (n as real + 0.5).Floor == n && (n as real).Floor == n;
  }

  /** Rounding never reverses an order. */
  lemma RoundToIntMonotone(x: real, y: real)
    requires x <= y
    ensures RoundToInt(x) <= RoundToInt(y)
  {
    assert x.Floor <= y.Floor;
  }

  lemma MultiplyMonotone(a: real, b: real, s: real)
    requires a <= b && s > 0.0
    ensures a * s <= b * s
  {
  }

  lemma DivideMonotone(a: real, b: real, s: real)
    requires a <= b && s > 0.0
    ensures a / s <= b / s
  {
    assert (b / s - a / s) * s == b - a;
  }

  lemma RoundToMonotone(x: real, y: real, scale: real)
    requires x <= y && scale > 0.0
    ensures RoundTo(x, scale) <= RoundTo(y, scale)
  {
    MultiplyMonotone(x, y, scale);
    RoundToIntMonotone(x * scale, y * scale);
    DivideMonotone(RoundToInt(x * scale) as real, RoundToInt(y * scale) as real, scale);
  }

  function GridPoint(n: int, scale: real): real
    requires scale > 0.0
  {
    n as real / scale
  }

  /** `x` is a whole number of units of one over `scale`. */
  ghost predicate OnGrid(x: real, scale: real)
    requires scale > 0.0
  {
    exists n: int :: GridPoint(n, scale) == x
  }

  /** Rounding lands on the grid, and grid points are its fixed points. */
  lemma RoundToGrid(x: real, scale: real)
    requires scale > 0.0
    ensures OnGrid(RoundTo(x, scale), scale)
    ensures OnGrid(x, scale) ==> RoundTo(x, scale) == x
  {
    assert RoundTo(x, scale) == GridPoint(RoundToInt(x * scale), scale);
    if OnGrid(x, scale) {
      var n: int :| GridPoint(n, scale) == x;
      assert x * scale == n as real;
      assert (n as real).Floor == n;
    }
  }

  /** Rounding moves a number by at most half a unit. */
  lemma RoundToClose(x: real, scale: real)
    requires scale > 0.0
    ensures RoundTo(x, scale) - 0.5 / scale <= x <= RoundTo(x, scale) + 0.5 / scale
  {
    var n := RoundToInt(x * scale);
    assert x * scale - 0.5 <= n as real <= x * scale + 0.5;
    DivideMonotone(x * scale - 0.5, n as real, scale);
    DivideMonotone(n as real, x * scale + 0.5, scale);
    assert (x * scale - 0.5) / scale == x - 0.5 / scale && (x * scale + 0.5) / scale == x + 0.5 / scale;
  }

  lemma GridSum(x: real, y: real, scale: real)
    requires scale > 0.0 && OnGrid(x, scale) && OnGrid(y, scale)
    ensures OnGrid(x + y, scale)
  {
    var m: int :| GridPoint(m, scale) == x;
    var n: int :| GridPoint(n, scale) == y;
    assert GridPoint(m + n, scale) == x + y by {
      assert (m + n) as real == m as real + n as real;
    }
  }
}

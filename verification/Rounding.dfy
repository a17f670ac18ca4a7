/** Go's `math.Round` on exact reals, and the two decimal grids the source rounds to. */
module Rounding {

  /** Nearest integer, halves away from zero (`math.Round`). */
  function RoundToInt(x: real): int {
    if x >= 0.0 then (x + 0.5).Floor else -((-x + 0.5).Floor)
  }

  /** Rounding of losses and confidences to three decimals. */
  function RoundMilli(x: real): real {
    RoundToInt(x * 1000.0) as real / 1000.0
  }

  /** Rounding of distances to centimetres. */
  function RoundCenti(x: real): real {
    RoundToInt(x * 100.0) as real / 100.0
  }

  lemma RoundToIntMonotone(x: real, y: real)
    requires x <= y
    ensures RoundToInt(x) <= RoundToInt(y)
  {
    if x < 0.0 <= y {
      assert (-x + 0.5).Floor >= 0 && (y + 0.5).Floor >= 0;
    }
  }

  lemma RoundToIntWithin(x: real)
    ensures -0.5 <= RoundToInt(x) as real - x <= 0.5
  {}

  /** Three-decimal rounding keeps order and moves a value by at most 0.0005. */
  lemma RoundMilliLaws(x: real, y: real)
    requires x <= y
    ensures RoundMilli(x) <= RoundMilli(y)
    ensures -0.0005 <= RoundMilli(x) - x <= 0.0005
  {
    RoundToIntMonotone(x * 1000.0, y * 1000.0);
    RoundToIntWithin(x * 1000.0);
  }

  lemma RoundToIntExact(n: int)
    ensures RoundToInt(n as real) == n
  {}

  lemma RoundMilliGrid(n: int)
    ensures RoundMilli(n as real / 1000.0) == n as real / 1000.0
  {
    var x := n as real / 1000.0;
    assert x * 1000.0 == n as real;
    RoundToIntExact(n);
  }

  /** Values between two grid points stay between them when rounded. */
  lemma RoundMilliBetween(x: real, low: int, high: int)
    requires low as real / 1000.0 <= x <= high as real / 1000.0
    ensures low as real / 1000.0 <= RoundMilli(x) <= high as real / 1000.0
  {
    RoundMilliGrid(low);
    RoundMilliGrid(high);
    RoundMilliLaws(low as real / 1000.0, x);
    RoundMilliLaws(x, high as real / 1000.0);
  }

  /** Centimetre rounding keeps order and moves a value by at most half a centimetre. */
  lemma RoundCentiLaws(x: real, y: real)
    requires x <= y
    ensures RoundCenti(x) <= RoundCenti(y)
    ensures -0.005 <= RoundCenti(x) - x <= 0.005
    ensures x >= 0.0 ==> RoundCenti(x) >= 0.0
  {
    RoundToIntMonotone(x * 100.0, y * 100.0);
    RoundToIntWithin(x * 100.0);
  }

  /** A value with three decimals for an exact one. */
  predicate ToMilli(x: real, exact: real) {
    -0.0005 <= x - exact <= 0.0005
  }

  lemma RoundToIntOdd(x: real)
    ensures RoundToInt(-x) == -RoundToInt(x)
  {}

  lemma RoundToIntHalf(n: nat)
    ensures RoundToInt(n as real + 0.5) == n + 1
  {}

  /** Both roundings end on their grid and treat positive and negative values alike. */
  lemma RoundedToGrid(x: real)
    ensures (RoundMilli(x) * 1000.0).Floor as real == RoundMilli(x) * 1000.0
    ensures (RoundCenti(x) * 100.0).Floor as real == RoundCenti(x) * 100.0
    ensures RoundMilli(-x) == -RoundMilli(x) && RoundCenti(-x) == -RoundCenti(x)
  {
    RoundToIntOdd(x * 1000.0);
    RoundToIntOdd(x * 100.0);
    assert -x * 1000.0 == -(x * 1000.0) && -x * 100.0 == -(x * 100.0);
    hide RoundToInt;
    assert RoundMilli(x) * 1000.0 == RoundToInt(x * 1000.0) as real;
    assert RoundCenti(x) * 100.0 == RoundToInt(x * 100.0) as real;
  }

  /** A value halfway between two grid points goes to the one farther from zero. */
  lemma HalvesGoAway(n: nat)
    ensures RoundMilli((n as real + 0.5) / 1000.0) == (n + 1) as real / 1000.0
    ensures RoundCenti((n as real + 0.5) / 100.0) == (n + 1) as real / 100.0
  {
    RoundToIntHalf(n);
    var x := n as real + 0.5;
    assert x / 1000.0 * 1000.0 == x && x / 100.0 * 100.0 == x;
  }
}

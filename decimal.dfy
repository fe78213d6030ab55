/**
 * The BigDecimal arithmetic the moving average relies on: exact addition and
 * a division rounded HALF_UP to a fixed number of fractional digits.
 */
module Decimal {

  /** Number of fractional digits the moving average is rounded to. */
  const FractionDigits: nat := 10

  /** 10^FractionDigits: one unit in the last kept place is 1 / Scale. */
  const Scale: real := 10000000000.0

  function Pow10(n: nat): nat
  {
    if n == 0 then 1 else 10 * Pow10(n - 1)
  }

  /** Scale is ten to the power FractionDigits. */
  lemma ScaleIsPow10()
    ensures Scale == Pow10(FractionDigits) as real
  {
  }

  /** x has at most FractionDigits fractional digits, i.e. x * Scale is a whole number. */
  predicate OnGrid(x: real) { (x * Scale).Floor as real == x * Scale }

  /** The whole number nearest to y; halves are rounded away from zero. */
  function NearestUnits(y: real): int
  {
    if y >= 0.0 then (y + 0.5).Floor else -((-y + 0.5).Floor)
  }

  /**
   * RoundingMode.HALF_UP at FractionDigits places: the grid point nearest to x,
   * and on a tie the one farther from zero.
   */
  function RoundHalfUp(x: real): (r: real)
    ensures OnGrid(r)
    ensures -0.5 <= (r - x) * Scale <= 0.5
    ensures (r - x) * Scale == 0.5 ==> x > 0.0
    ensures (r - x) * Scale == -0.5 ==> x < 0.0
  {
    NearestUnits(x * Scale) as real / Scale
  }

  /** The three properties of RoundHalfUp determine its result. */
  lemma RoundHalfUpUnique(x: real, r: real)
    requires OnGrid(r)
    requires -0.5 <= (r - x) * Scale <= 0.5
    requires (r - x) * Scale == 0.5 ==> x > 0.0
    requires (r - x) * Scale == -0.5 ==> x < 0.0
    ensures r == RoundHalfUp(x)
  {
    var q := RoundHalfUp(x);
    var a, b := (r * Scale).Floor, (q * Scale).Floor;
    assert a as real == r * Scale && b as real == q * Scale;
    assert -1.0 <= (a - b) as real <= 1.0;
    assert a == b;
  }

  /** A value that already has at most FractionDigits fractional digits is left as it is. */
  lemma RoundHalfUpOnGrid(x: real)
    requires OnGrid(x)
    ensures RoundHalfUp(x) == x
  {
    RoundHalfUpUnique(x, x);
  }

  /** Rounding never reverses the order of two values. */
  lemma RoundHalfUpMonotone(x: real, y: real)
    requires x <= y
    ensures RoundHalfUp(x) <= RoundHalfUp(y)
  {
    var u, v := x * Scale, y * Scale;
    if 0.0 <= x {
      assert (u + 0.5).Floor <= (v + 0.5).Floor;
    } else if y < 0.0 {
      assert (-v + 0.5).Floor <= (-u + 0.5).Floor;
    }
  }

  /** BigDecimal addition folded over the sequence from the left, starting at zero. */
  function Sum(s: seq<real>): (r: real)
    ensures s == [] ==> r == 0.0
  {
    if s == [] then 0.0 else Sum(s[..|s| - 1]) + s[|s| - 1]
  }

  /** Adding from the front gives the same sum: the order of the additions does not matter. */
  lemma {:induction false} SumFromFront(s: seq<real>)
    requires s != []
    ensures Sum(s) == s[0] + Sum(s[1..])
    decreases |s|
  {
    if |s| > 1 {
      var init := s[..|s| - 1];
      SumFromFront(init);
      assert init[1..] == s[1..][..|s[1..]| - 1];
    }
  }

  /** The sum of values that all lie in [lo, hi] lies in [n * lo, n * hi]. */
  lemma {:induction false} SumBounds(s: seq<real>, lo: real, hi: real)
    requires forall i :: 0 <= i < |s| ==> lo <= s[i] <= hi
    ensures |s| as real * lo <= Sum(s) <= |s| as real * hi
  {
    if s != [] {
      var init := s[..|s| - 1];
      SumBounds(init, lo, hi);
      assert |s| as real * lo == |init| as real * lo + lo;
      assert |s| as real * hi == |init| as real * hi + hi;
    }
  }
}

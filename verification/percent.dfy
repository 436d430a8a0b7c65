/** The integer percentages every view shows: `Math.round(a / b * 100)` over
    counts, guarded to 0 when there is nothing to count. */
module Percent {

  /** `b > 0 ? Math.round(a / b * 100) : 0`, computed exactly on integers: the
      nearest integer to `100 * a / b`, halves rounded up as `Math.round` does. */
  function RoundPercent(a: nat, b: nat): (r: nat)
    ensures b == 0 ==> r == 0
    ensures b > 0 ==> 2 * b * r <= 200 * a + b < 2 * b * r + 2 * b
  {
    if b == 0 then 0 else (200 * a + b) / (2 * b)
  }

  /** The rounded percentage is monotone in the numerator. */
  lemma RoundPercentMonotone(a: nat, a': nat, b: nat)
    requires a <= a'
    ensures RoundPercent(a, b) <= RoundPercent(a', b)
  {
    if b > 0 {
      var r, r' := RoundPercent(a, b), RoundPercent(a', b);
      if r > r' {
        MulMonotone(2 * b, r' + 1, r);
      }
    }
  }

  lemma MulMonotone(k: nat, x: nat, y: nat)
    requires x <= y
    ensures k * x <= k * y
  {
  }

  /** A part of a whole never shows more than 100%. */
  lemma RoundPercentAtMost100(a: nat, b: nat)
    requires a <= b
    ensures RoundPercent(a, b) <= 100
  {
    if b > 0 {
      RoundPercentMonotone(a, b, b);
      RoundPercentOfWhole(b);
    }
  }

  /** The quotient is the unique `q` with `y * q <= x < y * q + y`. */
  lemma DivUnique(x: nat, y: nat, q: nat)
    requires y > 0 && y * q <= x < y * q + y
    ensures x / y == q
  {
    var d := x / y;
    if d < q {
      MulMonotone(y, d + 1, q);
    } else if d > q {
      MulMonotone(y, q + 1, d);
    }
  }

  /** Nothing of a whole shows 0%. */
  lemma RoundPercentOfNothing(b: nat)
    ensures RoundPercent(0, b) == 0
  {
    if b > 0 {
      DivUnique(b, 2 * b, 0);
    }
  }

  /** A non-empty whole shows exactly 100%. */
  lemma RoundPercentOfWhole(b: nat)
    requires b > 0
    ensures RoundPercent(b, b) == 100
  {
    DivUnique(200 * b + b, 2 * b, 100);
  }

  /** The view reaches 100% exactly when the missing part is at most half a
      percent of the whole: `Math.round` turns 99.5% into 100%. */
  lemma RoundPercentFullIff(a: nat, b: nat)
    requires 0 < b && a <= b
    ensures RoundPercent(a, b) >= 100 <==> 200 * (b - a) <= b
  {
    var r := RoundPercent(a, b);
    RoundPercentAtMost100(a, b);
    if r >= 100 {
      MulMonotone(2 * b, 100, r);
    } else {
      MulMonotone(2 * b, r + 1, 100);
    }
  }

  /** With fewer than 200 items, 100% means every item: rounding alone never
      reaches it. */
  lemma RoundPercentFullSmall(a: nat, b: nat)
    requires 0 < b < 200 && a <= b
    ensures RoundPercent(a, b) >= 100 <==> a == b
  {
    RoundPercentFullIff(a, b);
  }

  /** The smallest whole where rounding alone reaches 100%: 199 of 200. */
  lemma RoundPercentRoundsUpTo100()
    ensures RoundPercent(199, 200) == 100
  {
    DivUnique(200 * 199 + 200, 400, 100);
  }

  /** The same rounding for a numerator that may be negative: `Math.round`
      takes the floor of `x + 0.5`, and Dafny's division by a positive number
      is the floor. */
  function RoundPercentSigned(a: int, b: nat): (r: int)
    ensures b == 0 ==> r == 0
    ensures b > 0 ==> 2 * b * r <= 200 * a + b < 2 * b * r + 2 * b
    ensures 0 <= a ==> r == RoundPercent(a, b)
  {
    if b == 0 then 0 else (200 * a + b) / (2 * b)
  }
}

/**
 * Python 2's `round(x, 2)` and `round(x)` over exact reals. Both round half
 * away from zero; floating-point representation error is not modelled.
 */
module Rounding {

  /** `round(x)`: the nearest integer, halves away from zero. */
  function RoundHalfAway(x: real): int {
    if x >= 0.0 then (x + 0.5).Floor else -((-x + 0.5).Floor)
  }

  /** `round(x, 2)`: the nearest multiple of 0.01, halves away from zero. */
  function Round2(x: real): real {
    (RoundHalfAway(x * 100.0) as real) / 100.0
  }

  /** `int(round(x)) == 1` holds exactly on the half-open interval [0.5, 1.5). */
  lemma RoundsToOne(x: real)
    ensures RoundHalfAway(x) == 1 <==> 0.5 <= x < 1.5
  {
    if x >= 0.0 {
      if 0.5 <= x < 1.5 {
        assert 1.0 <= x + 0.5 < 2.0;
      } else if x < 0.5 {
        assert (x + 0.5).Floor <= 0;
      } else {
        assert (x + 0.5).Floor >= 2;
      }
    }
  }

  /** Rounding to an integer is monotone. */
  lemma RoundHalfAwayMonotone(x: real, y: real)
    requires x <= y
    ensures RoundHalfAway(x) <= RoundHalfAway(y)
  {
    if x >= 0.0 {
      assert (x + 0.5).Floor <= (y + 0.5).Floor;
    } else if y >= 0.0 {
      assert RoundHalfAway(x) <= 0;
    } else {
      assert (-y + 0.5).Floor <= (-x + 0.5).Floor;
    }
  }

  /** Rounding to two decimals is monotone, so it preserves every bound between scores. */
  lemma Round2Monotone(x: real, y: real)
    requires x <= y
    ensures Round2(x) <= Round2(y)
  {
    RoundHalfAwayMonotone(x * 100.0, y * 100.0);
  }

  /** Rounding keeps the sign of a non-negative score. */
  lemma Round2NonNegative(x: real)
    requires x >= 0.0
    ensures Round2(x) >= 0.0
  {
  }

  /** Rounding an already rounded score changes nothing. */
  lemma Round2Idempotent(x: real)
    ensures Round2(Round2(x)) == Round2(x)
  {
    var k := RoundHalfAway(x * 100.0);
    assert Round2(x) * 100.0 == k as real;
    if k >= 0 {
      assert (k as real + 0.5).Floor == k;
    } else {
      assert (-(k as real) + 0.5).Floor == -k;
    }
  }
}

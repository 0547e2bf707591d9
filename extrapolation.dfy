/**
 * Pro-rating a partial month to a full month.
 *
 * When some days of the month have no valid reading, the raw sum is scaled
 * linearly, assuming the missing days had the average of the observed ones.
 * A month with at least as many readings as days, or with no reading at all,
 * keeps its raw sum.
 */
module Extrapolation {

  function Extrapolate(rawSum: real, days: nat, expected: nat): real {
    if days < expected && days > 0 then rawSum / (days as real) * (expected as real) else rawSum
  }

  /**
   * `total` is `rawSum` scaled by the rule: in the ratio `expected : days`
   * when `0 < days < expected`, and equal to `rawSum` otherwise.
   */
  predicate ScaledFrom(total: real, rawSum: real, days: nat, expected: nat) {
    (0 < days < expected ==> total * (days as real) == rawSum * (expected as real)) &&
    (days == 0 || days >= expected ==> total == rawSum)
  }

  /**
   * The scaling rule: a month with some but fewer readings than days has its
   * total in the ratio `expected : days` to the raw sum; any other month keeps
   * the raw sum.
   */
  lemma ScalingRule(rawSum: real, days: nat, expected: nat)
    ensures 0 < days < expected ==>
      Extrapolate(rawSum, days, expected) * (days as real) == rawSum * (expected as real)
    ensures days == 0 || days >= expected ==> Extrapolate(rawSum, days, expected) == rawSum
    ensures ScaledFrom(Extrapolate(rawSum, days, expected), rawSum, days, expected)
  {
    if 0 < days < expected {
      var d, e := days as real, expected as real;
      assert rawSum / d * e * d == rawSum * e;
    }
  }

  /** A scaled month keeps the observed daily average. */
  lemma KeepsDailyAverage(rawSum: real, days: nat, expected: nat)
    requires 0 < days < expected
    ensures Extrapolate(rawSum, days, expected) / (expected as real) == rawSum / (days as real)
  {
    var t := Extrapolate(rawSum, days, expected);
    var d, e := days as real, expected as real;
    assert t == rawSum / d * e;
    calc {
      t / e;
      (rawSum / d * e) / e;
      rawSum / d;
    }
  }

  /** A total is never scaled down: with non-negative readings it is at least the raw sum. */
  lemma NeverScalesDown(rawSum: real, days: nat, expected: nat)
    requires rawSum >= 0.0
    ensures Extrapolate(rawSum, days, expected) >= rawSum
  {
    if 0 < days < expected {
      var d, e := days as real, expected as real;
      var avg := rawSum / d;
      assert avg >= 0.0;
      assert rawSum == avg * d;
      assert avg * e >= avg * d by {
        assert e - d > 0.0;
        assert avg * (e - d) >= 0.0;
      }
    }
  }

  /** A month whose readings all equal `v` is pro-rated to `v` on every expected day. */
  lemma UniformMonth(v: real, days: nat, expected: nat)
    requires 0 < days <= expected
    ensures Extrapolate((days as real) * v, days, expected) == (expected as real) * v
  {
    if days < expected {
      var d, e := days as real, expected as real;
      assert (d * v) / d == v;
    }
  }

  /** The worked examples: 10 readings summing to 300 in a 30-day month give 900, 28 summing to 280 in a 29-day February give 290. */
  lemma WorkedExamples()
    ensures Extrapolate(300.0, 10, 30) == 900.0
    ensures Extrapolate(280.0, 28, 29) == 290.0
    ensures Extrapolate(3100.0, 31, 31) == 3100.0
    ensures Extrapolate(0.0, 0, 31) == 0.0
  {
  }
}

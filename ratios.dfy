/**
 * Facts about fractions of counts that the fitter, the tuner and the
 * branching rule share: a ratio compared with a threshold in hundredths, and
 * a part and its complement as shares of a whole.
 */
module Ratios {

  /** `count / total >= t / 100` is the same test as `100 * count >= t * total`. */
  lemma ThresholdRatioTest(count: int, total: int, t: int)
    requires total > 0
    ensures count as real / total as real >= t as real / 100.0 <==> 100 * count >= t * total
  {
    var c, n := count as real, total as real;
    var ratio := c / n;
    assert ratio * n == c;
    assert (t as real / 100.0) * 100.0 == t as real;
    if ratio >= t as real / 100.0 {
      assert ratio * (100.0 * n) >= (t as real / 100.0) * (100.0 * n);
    } else {
      assert ratio * (100.0 * n) < (t as real / 100.0) * (100.0 * n);
    }
  }

  /** A part and its complement, as shares of a positive whole, lie in [0, 1] and add up to 1. */
  lemma SharesOfWhole(part: nat, whole: nat)
    requires part <= whole && whole > 0
    ensures 0.0 <= part as real / whole as real <= 1.0
    ensures part as real / whole as real + (whole - part) as real / whole as real == 1.0
  {
    var p, w := part as real, whole as real;
    var inv := 1.0 / w;
    assert p / w == p * inv && (w - p) / w == (w - p) * inv;
    assert p * inv + (w - p) * inv == w * inv == 1.0;
    assert p / w <= w / w;
  }
}

/**
 * Rounding and scaling helpers of the image gallery, on reals. `round` is
 * `Math.round(100 n + EPSILON) / 100`; `Math.round` rounds half-way cases
 * up, which on reals is `Floor(x + 1/2)`, and the epsilon is dropped.
 */
module GalleryUtils {

  /** `x` is a whole number of hundredths. */
  predicate IsHundredth(x: real)
  {
    (x * 100.0).Floor as real == x * 100.0
  }

  /** `Math.round`: the nearest integer, half-way cases upwards. */
  function MathRound(x: real): (r: int)
    ensures x - 0.5 < r as real <= x + 0.5
  {
    (x + 0.5).Floor
  }

  /** `round`: the hundredth nearest to `n`, half-way cases upwards. */
  function Round(n: real): real
  {
    MathRound(n * 100.0) as real / 100.0
  }

  /** The rounded value is a whole number of hundredths within half a hundredth of `n`. */
  lemma {:induction false} RoundBounds(n: real)
    ensures IsHundredth(Round(n))
    ensures n - 0.005 < Round(n) <= n + 0.005
  {
    var m := MathRound(n * 100.0);
    assert (m as real / 100.0) * 100.0 == m as real;
  }

  /**
   * `Round(n)` is the only hundredth in `(n - 1/200, n + 1/200]`, which
   * characterises it without reference to its definition.
   */
  lemma {:induction false} RoundIsTheNearestHundredth(n: real, q: real)
    requires IsHundredth(q) && n - 0.005 < q <= n + 0.005
    ensures q == Round(n)
  {
    var r := Round(n);
    RoundBounds(n);
    var k := (q * 100.0).Floor;
    var m := (r * 100.0).Floor;
    assert -1.0 < (q - r) * 100.0 < 1.0;
    assert k as real - m as real == (q - r) * 100.0;
    assert k == m;
  }

  /** Rounding keeps order. */
  lemma {:induction false} RoundMonotone(x: real, y: real)
    requires x <= y
    ensures Round(x) <= Round(y)
  {
    assert (x * 100.0 + 0.5).Floor <= (y * 100.0 + 0.5).Floor;
  }

  /** Rounding a whole number of hundredths changes nothing, so `round` is idempotent. */
  lemma {:induction false} RoundIdempotent(n: real)
    ensures Round(Round(n)) == Round(n)
  {
    var r := Round(n);
    RoundBounds(n);
    RoundIsTheNearestHundredth(r, r);
  }

  /** `ratio(width, height)`: the aspect ratio to two decimals. */
  function Ratio(width: real, height: real): real
    requires height != 0.0
  {
    Round(width / height)
  }

  /** The ratio is a whole number of hundredths within half a hundredth of `width / height`. */
  lemma {:induction false} RatioBounds(width: real, height: real)
    requires height != 0.0
    ensures IsHundredth(Ratio(width, height))
    ensures width / height - 0.005 < Ratio(width, height) <= width / height + 0.005
  {
    RoundBounds(width / height);
  }

  /** A square image has ratio exactly 1. */
  lemma {:induction false} SquareRatio(w: real)
    requires w != 0.0
    ensures Ratio(w, w) == 1.0
  {
    assert w / w == 1.0;
    RoundIsTheNearestHundredth(1.0, 1.0);
  }

  /** `scaleHeight(width, ratio)`: the height at which `ratio` fills `width`, to two decimals. */
  function ScaleHeight(width: real, ratio: real): real
    requires ratio != 0.0
  {
    Round(width / ratio)
  }

  lemma {:induction false} ScaleHeightBounds(width: real, ratio: real)
    requires ratio != 0.0
    ensures IsHundredth(ScaleHeight(width, ratio))
    ensures width / ratio - 0.005 < ScaleHeight(width, ratio) <= width / ratio + 0.005
  {
    RoundBounds(width / ratio);
  }

  /** `scaleWidth(height, ratio)`: the width of `ratio` at `height`, to two decimals. */
  function ScaleWidth(height: real, ratio: real): real
  {
    Round(height * ratio)
  }

  lemma {:induction false} ScaleWidthBounds(height: real, ratio: real)
    ensures IsHundredth(ScaleWidth(height, ratio))
    ensures height * ratio - 0.005 < ScaleWidth(height, ratio) <= height * ratio + 0.005
  {
    RoundBounds(height * ratio);
  }
}

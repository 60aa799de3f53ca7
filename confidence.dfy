/**
 * Confidence scoring: a search distance becomes a score 1 / (1 + d) shown
 * with two decimals. Scores are kept as whole hundredths, so 0.85 is 85.
 */
module Confidence {

  /** The score of a perfect match, 1.00, in hundredths. */
  const Full: int := 100

  /** The least score a match needs to be shown, 0.15, in hundredths. */
  const MinConfidence: int := 15

  /** The exact, unrounded score in hundredths, 100 / (1 + d). */
  function Exact(d: real): (q: real)
    requires d >= 0.0
    ensures 0.0 < q <= 100.0
  {
    100.0 / (1.0 + d)
  }

  /** The exact score times 1 + d gives back 100. */
  lemma ExactTimes(d: real)
    requires d >= 0.0
    ensures Exact(d) * (1.0 + d) == 100.0
  {
  }

  /**
   * The score of distance `d` in hundredths: 1 / (1 + d) rounded to two
   * decimals, rounding halves up.
   */
  function Score(d: real): (r: int)
    requires d >= 0.0
    ensures 0 <= r <= Full
    ensures d == 0.0 ==> r == Full
    ensures r as real - 0.5 <= Exact(d) < r as real + 0.5
  {
    (Exact(d) + 0.5).Floor
  }

  /** A larger distance never gives a larger exact score. */
  lemma ExactAntitone(d1: real, d2: real)
    requires 0.0 <= d1 <= d2
    ensures Exact(d1) >= Exact(d2)
  {
    var q1, q2 := Exact(d1), Exact(d2);
    ExactTimes(d1);
    ExactTimes(d2);
    assert q1 * (1.0 + d2) - q1 * (1.0 + d1) == q1 * (d2 - d1) >= 0.0;
    assert (q1 - q2) * (1.0 + d2) >= 0.0;
  }

  /** Confidence never increases with distance. */
  lemma ScoreAntitone(d1: real, d2: real)
    requires 0.0 <= d1 <= d2
    ensures Score(d1) >= Score(d2)
  {
    ExactAntitone(d1, d2);
  }

  /**
   * A match is shown exactly when its distance is at most 171/29 (about
   * 5.897), the distance at which the exact score is 0.145.
   */
  lemma ShownIffClose(d: real)
    requires d >= 0.0
    ensures Score(d) >= MinConfidence <==> d <= 171.0 / 29.0
  {
    var q := Exact(d);
    ExactTimes(d);
    if d <= 171.0 / 29.0 {
      assert 1.0 + d <= 200.0 / 29.0;
      assert q * (200.0 / 29.0) >= q * (1.0 + d);
      assert q >= 14.5;
    } else {
      assert 1.0 + d > 200.0 / 29.0;
      assert q * (1.0 + d) > q * (200.0 / 29.0);
      assert q < 14.5;
    }
  }

  /** The score rounds down to 0.00 exactly when the distance exceeds 199. */
  lemma ZeroIffFar(d: real)
    requires d >= 0.0
    ensures Score(d) == 0 <==> d > 199.0
  {
    var q := Exact(d);
    ExactTimes(d);
    if d > 199.0 {
      assert q * (1.0 + d) > q * 200.0;
      assert q < 0.5;
    } else {
      assert q * 200.0 >= q * (1.0 + d);
      assert q >= 0.5;
    }
  }
}

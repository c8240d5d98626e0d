/**
 * calculate_business_value and calculate_overall_value: the two weighted
 * sums at the end of an assessment run. Business value weighs quality 20%,
 * completeness 20%, consistency 15%, accuracy 25% and timeliness 20%, with
 * an accuracy of 0 replaced by 50 (`accuracy_score or 50`); the overall
 * value weighs quality 30% and business value 70%. Both are rounded to two
 * decimals.
 */
module Scoring {
  import opened Numbers

  /** `accuracy_score or 50`: a zero score is falsy in Python. */
  function AccuracyOrDefault(accuracy: real): real
  {
    if accuracy != 0.0 then accuracy else 50.0
  }

  /**
   * Percentages in give a percentage out, and the weights add up to one:
   * five equal non-zero scores give that score back, rounded.
   */
  function BusinessValue(quality: real, completeness: real, consistency: real, accuracy: real, timeliness: real): (r: real)
    ensures (&& 0.0 <= quality <= 100.0 && 0.0 <= completeness <= 100.0 && 0.0 <= consistency <= 100.0
             && 0.0 <= accuracy <= 100.0 && 0.0 <= timeliness <= 100.0)
      ==> 0.0 <= r <= 100.0
    ensures quality == completeness == consistency == accuracy == timeliness != 0.0 ==> r == Round2(quality)
  {
    var x := 0.2 * quality + 0.2 * completeness + 0.15 * consistency
      + 0.25 * AccuracyOrDefault(accuracy) + 0.2 * timeliness;
    Round2Within(x);
    Round2(x)
  }

  /** Percentages in give a percentage out, and the weights add up to one:
      two equal scores give that score back, rounded. */
  function OverallValue(quality: real, businessValue: real): (r: real)
    ensures 0.0 <= quality <= 100.0 && 0.0 <= businessValue <= 100.0 ==> 0.0 <= r <= 100.0
    ensures quality == businessValue ==> r == Round2(quality)
  {
    var x := 0.3 * quality + 0.7 * businessValue;
    Round2Within(x);
    Round2(x)
  }

  /** A quality of 80 and a business value of 70 give 73. */
  lemma OverallValueExample()
    ensures OverallValue(80.0, 70.0) == 73.0
  {
    Round2OfHundredths(7300);
  }

  /** Every score counts for its weight: raising one never lowers the
      business value, as long as the accuracy stays non-zero. */
  lemma BusinessValueMonotone(q: real, c: real, s: real, a: real, t: real,
                              q': real, c': real, s': real, a': real, t': real)
    requires q <= q' && c <= c' && s <= s' && t <= t'
    requires 0.0 < a <= a'
    ensures BusinessValue(q, c, s, a, t) <= BusinessValue(q', c', s', a', t')
  {
    Round2Monotone(0.2 * q + 0.2 * c + 0.15 * s + 0.25 * a + 0.2 * t,
                   0.2 * q' + 0.2 * c' + 0.15 * s' + 0.25 * a' + 0.2 * t');
  }

  lemma OverallValueMonotone(q: real, b: real, q': real, b': real)
    requires q <= q' && b <= b'
    ensures OverallValue(q, b) <= OverallValue(q', b')
  {
    Round2Monotone(0.3 * q + 0.7 * b, 0.3 * q' + 0.7 * b');
  }

  /** An accuracy of 0 (every rule failed) counts as 50, so it scores the
      same as an accuracy of 50 and more than an accuracy of 1: the business
      value is not monotone in the accuracy at 0. */
  lemma ZeroAccuracyCountsAsFifty(q: real, c: real, s: real, t: real)
    ensures BusinessValue(q, c, s, 0.0, t) == BusinessValue(q, c, s, 50.0, t)
    ensures BusinessValue(0.0, 0.0, 0.0, 0.0, 0.0) == 12.5
    ensures BusinessValue(0.0, 0.0, 0.0, 1.0, 0.0) == 0.25
  {
    Round2OfHundredths(1250);
    Round2OfHundredths(25);
  }
}

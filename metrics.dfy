/** The live statistics shown during a session (updateStats), in exact
    rational arithmetic with `Math.round`'s rounding of halves upwards. */
module Metrics {
  import opened Passage

  /** Length of a session in seconds. */
  const Window: nat := 60

  /** A speed readout: a count, or the `Infinity` that a division by a zero
      elapsed time produces. */
  datatype Speed = Count(wpm: int) | Infinity

  /** `Math.round(n / d)` for a positive denominator: the integer nearest to
      n / d, halves going up. */
  function RoundDiv(n: int, d: int): (r: int)
    requires d > 0
    ensures 2 * d * r <= 2 * n + d < 2 * d * (r + 1)
  {
    (2 * n + d) / (2 * d)
  }

  /** Accuracy in percent: the share of typed characters that were not
      errors, rounded; 0 when nothing has been typed (`NaN || 0`). */
  function Accuracy(totalTyped: int, errors: int): (r: int)
    requires 0 <= errors <= totalTyped
    ensures totalTyped == 0 ==> r == 0
    ensures totalTyped > 0 ==>
      2 * totalTyped * r <= 200 * (totalTyped - errors) + totalTyped < 2 * totalTyped * (r + 1)
    ensures 0 <= r <= 100
  {
    if totalTyped == 0 then 0
    else
      RoundDivRange(100 * (totalTyped - errors), totalTyped, 100);
      RoundDiv(100 * (totalTyped - errors), totalTyped)
  }

  /** The typed units: English counts a word per five characters, rounded;
      Chinese counts every character. */
  function Units(lang: Language, totalTyped: int): (r: int)
    requires 0 <= totalTyped
    ensures lang == Chinese ==> r == totalTyped
    ensures lang == English ==> 10 * r <= 2 * totalTyped + 5 < 10 * (r + 1)
    ensures 0 <= r
  {
    match lang
    case English => RoundDiv(totalTyped, 5)
    case Chinese => totalTyped
  }

  /** Words per minute after `Window - timeLeft` elapsed seconds: the units
      per elapsed minute, rounded; 0 for no units (`NaN || 0` and `0 || 0`);
      `Infinity` for some units before the first second has passed. */
  function Wpm(units: int, timeLeft: int): (r: Speed)
    requires 0 <= units && 0 <= timeLeft <= Window
    ensures r == Infinity <==> timeLeft == Window && units > 0
    ensures units == 0 ==> r == Count(0)
    ensures timeLeft < Window ==>
              && r.Count? && 0 <= r.wpm
              && 2 * (Window - timeLeft) * r.wpm <= 120 * units + (Window - timeLeft)
              && 120 * units + (Window - timeLeft) < 2 * (Window - timeLeft) * (r.wpm + 1)
  {
    var elapsed := Window - timeLeft;
    if elapsed == 0 then (if units == 0 then Count(0) else Infinity)
    else Count(RoundDiv(60 * units, elapsed))
  }

  /** Accuracy reads 100% exactly when at most one typed character in 200
      was an error. */
  lemma AccuracyFull(totalTyped: int, errors: int)
    requires 0 <= errors <= totalTyped && totalTyped > 0
    ensures Accuracy(totalTyped, errors) == 100 <==> 200 * errors <= totalTyped
  {
    var r := Accuracy(totalTyped, errors);
    if r == 100 {
      assert 200 * totalTyped <= 200 * (totalTyped - errors) + totalTyped;
    } else {
      assert r <= 99;
      assert 2 * totalTyped * (r + 1) <= 2 * totalTyped * 100 by {
        MulMonotone(2 * totalTyped, r + 1, 100);
      }
    }
  }

  /** More errors over the same characters never raise the accuracy. */
  lemma AccuracyAntitone(totalTyped: int, fewer: int, more: int)
    requires 0 <= fewer <= more <= totalTyped
    ensures Accuracy(totalTyped, more) <= Accuracy(totalTyped, fewer)
  {
    if totalTyped > 0 {
      var lo, hi := Accuracy(totalTyped, more), Accuracy(totalTyped, fewer);
      assert 2 * totalTyped * lo < 2 * totalTyped * (hi + 1);
      if lo > hi {
        MulMonotone(2 * totalTyped, hi + 1, lo);
      }
    }
  }

  /** A rounded quotient of a numerator between 0 and k times the
      denominator lies between 0 and k. */
  lemma RoundDivRange(n: int, d: int, k: int)
    requires d > 0 && 0 <= n <= k * d
    ensures 0 <= RoundDiv(n, d) <= k
  {
    var r := RoundDiv(n, d);
    if r > k {
      assert 2 * d * (k + 1) == 2 * d * k + 2 * d;
      assert 2 * d * k == 2 * (k * d);
      MulMonotone(2 * d, k + 1, r);
    }
    if r < 0 {
      MulMonotone(2 * d, r + 1, 0);
    }
  }

  lemma MulMonotone(k: int, a: int, b: int)
    requires k > 0 && a <= b
    ensures k * a <= k * b
  {
  }

  /** Three worked figures: 10 typed with 3 errors reads 70%,
      nothing typed reads 0%, and 250 English characters in a full minute
      read 50 words per minute. */
  lemma WorkedExamples()
    ensures Accuracy(10, 3) == 70
    ensures Accuracy(0, 0) == 0
    ensures Units(English, 250) == 50 && Wpm(Units(English, 250), 0) == Count(50)
  {
  }
}

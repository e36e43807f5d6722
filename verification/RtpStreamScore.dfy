/** The score of an RTP stream: a weighted mean of its latest scores, the more recent the heavier. */
module RtpStreamScores {
  import opened Bytes
  import opened Arithmetic

  const HISTOGRAM_LENGTH := 24

  /** The weights 1 + 2 + .. + n. */
  function Samples(n: nat): nat
  {
    if n == 0 then 0 else Samples(n - 1) + n
  }

  /** The sum of the scores, each times its place. */
  function Total(scores: seq<byte>): nat
  {
    if scores == [] then 0 else Total(scores[..|scores| - 1]) + |scores| * scores[|scores| - 1]
  }

  function Score(scores: seq<byte>): (r: nat)
    requires scores != []
  {
    Total(scores) / Samples(|scores|)
  }

  function Pushed(scores: seq<byte>, score: byte): (r: seq<byte>)
    ensures r != []
  {
    (if |scores| == HISTOGRAM_LENGTH then scores[1..] else scores) + [score]
  }

  predicate AllBetween(scores: seq<byte>, low: byte, high: byte)
  {
    forall i :: 0 <= i < |scores| ==> low <= scores[i] <= high
  }

  lemma {:induction false} TotalBetween(scores: seq<byte>, low: byte, high: byte)
    requires AllBetween(scores, low, high)
    ensures Samples(|scores|) * low <= Total(scores) <= Samples(|scores|) * high
  {
    if scores != [] {
      var n := |scores|;
      var last := scores[n - 1];
      TotalBetween(scores[..n - 1], low, high);
      OneMore(Samples(n - 1), Total(scores[..n - 1]), n, low, last, high);
    }
  }

  lemma OneMore(samples: nat, total: nat, n: nat, low: nat, last: nat, high: nat)
    requires samples * low <= total <= samples * high && low <= last <= high
    ensures (samples + n) * low <= total + n * last <= (samples + n) * high
  {
    MulMono(low, last, n);
    MulMono(last, high, n);
    assert (samples + n) * low == samples * low + n * low;
    assert (samples + n) * high == samples * high + n * high;
  }

  lemma SamplesIsPositive(n: nat)
    requires n > 0
    ensures Samples(n) > 0
  {
  }

  /** The score is between the lowest and the highest of the histogram; so it fits its byte. */
  lemma ScoreBetween(scores: seq<byte>, low: byte, high: byte)
    requires scores != [] && AllBetween(scores, low, high)
    ensures low <= Score(scores) <= high
  {
    hide Total, Samples, AllBetween;
    var t, s := Total(scores), Samples(|scores|);
    SamplesIsPositive(|scores|);
    TotalBetween(scores, low, high);
    QuotientBounds(t, s);
    var q := t / s;
    if q < low {
      MulStrict(q, low, s);
    }
    if high < q {
      MulStrict(high, q, s);
    }
  }

  /** The histogram after the same score `n` times. */
  function PushedTimes(scores: seq<byte>, score: byte, n: nat): seq<byte>
  {
    if n == 0 then scores else Pushed(PushedTimes(scores, score, n - 1), score)
  }

  lemma {:induction false} PushedTimesFits(scores: seq<byte>, score: byte, n: nat)
    requires |scores| <= HISTOGRAM_LENGTH
    ensures var r := PushedTimes(scores, score, n);
            && |r| <= HISTOGRAM_LENGTH
            && (n > 0 ==> r != [])
            && (forall i :: 0 <= i < |r| && |r| - n <= i ==> r[i] == score)
  {
    if n > 0 {
      PushedTimesFits(scores, score, n - 1);
    }
  }

  /** After a full histogram of equal scores what was there before does not matter. */
  lemma ScoreConverges(scores: seq<byte>, score: byte, n: nat)
    requires |scores| <= HISTOGRAM_LENGTH <= n
    ensures var r := PushedTimes(scores, score, n); r != [] && Score(r) == score
  {
    PushedTimesFits(scores, score, n);
    ScoreBetween(PushedTimes(scores, score, n), score, score);
  }

  /** With the latest score raised the mean does not fall. */
  lemma ScoreIsMonotone(scores: seq<byte>, lower: byte, higher: byte)
    requires lower <= higher && |scores| <= HISTOGRAM_LENGTH
    ensures Score(Pushed(scores, lower)) <= Score(Pushed(scores, higher))
  {
    var x, y := Pushed(scores, lower), Pushed(scores, higher);
    assert x[..|x| - 1] == y[..|y| - 1];
    MulMono(lower, higher, |x|);
    SamplesIsPositive(|x|);
    QuotientIsMonotone(Total(x), Total(y), Samples(|x|));
  }

  // ----- Rounding

  /** The mean rounded to the nearest integer, halves up, as std::round would do on the exact quotient. */
  function Rounded(scores: seq<byte>): (r: nat)
    requires scores != []
  {
    (2 * Total(scores) + Samples(|scores|)) / (2 * Samples(|scores|))
  }

  lemma RoundedIs(x: nat, n: nat)
    requires n > 0
    ensures (2 * x + n) / (2 * n) == if 2 * (x % n) < n then x / n else x / n + 1
  {
    var q, r := x / n, x % n;
    QuotientBounds(x, n);
    assert x == q * n + r;
    var k, rest := if 2 * r < n then q else q + 1, if 2 * r < n then 2 * r + n else 2 * r - n;
    assert k * (2 * n) == 2 * (k * n);
    assert (q + 1) * n == q * n + n;
    assert 2 * x + n == k * (2 * n) + rest;
    QuotientIs(2 * x + n, 2 * n, k, rest);
  }

  /** The code divides the integers before it rounds, so the score is the truncated mean. It is the rounded one exactly
      when the fraction is below a half; otherwise it is one less. */
  lemma ScoreIsRoundedIff(scores: seq<byte>)
    requires scores != []
    ensures Score(scores) == Rounded(scores) <==> 2 * (Total(scores) % Samples(|scores|)) < Samples(|scores|)
    ensures Rounded(scores) - 1 <= Score(scores) <= Rounded(scores)
  {
    hide Total, Samples;
    SamplesIsPositive(|scores|);
    RoundedIs(Total(scores), Samples(|scores|));
  }

  /** The input on which the two differ: the mean 3.5 of 0, 3, 3, 5 is cut to 3, and rounds to 4. */
  lemma HalfIsCut()
    ensures Total([0, 3, 3, 5]) == 35 && Samples(4) == 10
    ensures Score([0, 3, 3, 5]) == 3 && Rounded([0, 3, 3, 5]) == 4
  {
    var s: seq<byte> := [0, 3, 3, 5];
    assert s[..3] == [0, 3, 3] && s[..3][..2] == [0, 3] && s[..3][..2][..1] == [0] && s[..3][..2][..1][..0] == [];
    assert Total([0]) == 0 && Total([0, 3]) == 6 && Total([0, 3, 3]) == 15;
    assert Samples(0) == 0 && Samples(1) == 1 && Samples(2) == 3 && Samples(3) == 6;
  }

  /** The example in the code's comment, 1, 2, 3, 4, is none: its mean is 30 / 10, and not 2.8 as written there. */
  lemma CommentExampleIsExact()
    ensures Total([1, 2, 3, 4]) == 30 && Samples(4) == 10
    ensures Score([1, 2, 3, 4]) == Rounded([1, 2, 3, 4]) == 3
  {
    var s: seq<byte> := [1, 2, 3, 4];
    assert s[..3] == [1, 2, 3] && s[..3][..2] == [1, 2] && s[..3][..2][..1] == [1] && s[..3][..2][..1][..0] == [];
    assert Total([1]) == 1 && Total([1, 2]) == 5 && Total([1, 2, 3]) == 14;
    assert Samples(0) == 0 && Samples(1) == 1 && Samples(2) == 3 && Samples(3) == 6;
  }

  class RtpStreamScore {
    var scores: seq<byte>
    var score: byte

    constructor ()
      ensures scores == []
    {
      scores, score := [], 0;
    }

    /** Adds a score; true when the effective score changed, which is when the listener is told. */
    method UpdateScore(latest: byte) returns (changed: bool)
      requires |scores| <= HISTOGRAM_LENGTH
      modifies this
      ensures scores == Pushed(old(scores), latest) && |scores| <= HISTOGRAM_LENGTH
      ensures score == Score(scores)
      ensures changed <==> score != old(score)
    {
      var previousScore := score;
      if |scores| == HISTOGRAM_LENGTH {
        scores := scores[1..];
      }
      scores := scores + [latest];
      var weight, samples, totalScore := 0, 0, 0;
      while weight < |scores|
        invariant 0 <= weight <= |scores|
        invariant samples == Samples(weight) && totalScore == Total(scores[..weight])
      {
        assert scores[..weight + 1][..weight] == scores[..weight];
        var sample := scores[weight];
        weight := weight + 1;
        samples := samples + weight;
        totalScore := totalScore + weight * sample;
      }
      assert scores[..weight] == scores;
      SamplesIsPositive(|scores|);
      ScoreBetween(scores, 0, 255);
      score := totalScore / samples;
      changed := score != previousScore;
    }
  }
}

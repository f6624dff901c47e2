/** The response-time score of a Backend: an exponentially smoothed average in microseconds, where 0
    reads as "unmeasured". Reals stand for float64. */
module MovingAverage {

  const SMOOTHING := 0.2

  const FAILURE_PENALTY := 10_000_000_000  // 10 seconds, in nanoseconds

  /** float64(d) / float64(time.Microsecond) */
  function DurationMicros(nanos: nat): (r: real)
    ensures 1000.0 * r == nanos as real
  {
    nanos as real / 1000.0
  }

  /** elapsed.Microseconds(), which truncates. */
  function WholeMicros(nanos: nat): (r: nat)
    ensures 1000 * r <= nanos < 1000 * r + 1000
  {
    nanos / 1000
  }

  /** A failure counts as ten seconds, or as its own time if that is longer. */
  function PenalisedNanos(elapsed: nat): (r: nat)
    ensures r in {elapsed, 10_000_000_000} && r >= elapsed && r >= 10_000_000_000
  {
    if elapsed < FAILURE_PENALTY then FAILURE_PENALTY else elapsed
  }

  /** The next score, from the stored one and a new sample. */
  function Smooth(current: real, micros: real): (r: real)
    ensures current == 0.0 ==> r == micros
    ensures current != 0.0 ==> 5.0 * r == micros + 4.0 * current
  {
    if current != 0.0 then SMOOTHING * micros + (1.0 - SMOOTHING) * current else micros
  }

  /** The score `after` one sample of so many nanoseconds: the sample's microseconds if the Backend read as
      unmeasured, and else a fifth of them and four fifths of the score before. */
  predicate AfterSample(before: real, nanos: nat, after: real) {
    if before == 0.0 then 1000.0 * after == nanos as real else 5000.0 * after == nanos as real + 4000.0 * before
  }

  lemma SmoothIsAfterSample(before: real, nanos: nat)
    ensures AfterSample(before, nanos, Smooth(before, DurationMicros(nanos)))
  {
  }

  /** The score after these samples, starting unmeasured. */
  function Fold(samples: seq<real>): real {
    if samples == [] then 0.0 else Smooth(Fold(samples[..|samples| - 1]), samples[|samples| - 1])
  }

  lemma FoldExtend(samples: seq<real>, micros: real)
    ensures Fold(samples + [micros]) == Smooth(Fold(samples), micros)
  {
    assert (samples + [micros])[..|samples|] == samples;
  }

  /** The score never leaves the range of the samples that made it. */
  lemma {:induction false} FoldStaysBetween(samples: seq<real>, low: real, high: real)
    requires samples != [] && 0.0 < low
    requires forall i :: 0 <= i < |samples| ==> low <= samples[i] <= high
    ensures low <= Fold(samples) <= high
  {
    if |samples| > 1 {
      FoldStaysBetween(samples[..|samples| - 1], low, high);
    } else {
      assert Fold(samples[..0]) == 0.0;
    }
  }

  /** "Unmeasured" is read off the score, so samples of 0 microseconds do not count as measured; any
      other sample does, for good. */
  lemma {:induction false} UnmeasuredIffNoTimePassed(samples: seq<real>)
    requires forall i :: 0 <= i < |samples| ==> samples[i] >= 0.0
    ensures Fold(samples) >= 0.0
    ensures Fold(samples) == 0.0 <==> forall i :: 0 <= i < |samples| ==> samples[i] == 0.0
  {
    if samples != [] {
      var n := |samples| - 1;
      UnmeasuredIffNoTimePassed(samples[..n]);
      assert forall i :: 0 <= i < n ==> samples[..n][i] == samples[i];
    }
  }

  function Power(x: real, k: nat): real {
    if k == 0 then 1.0 else x * Power(x, k - 1)
  }

  function SmoothMany(score: real, micros: real, k: nat): real {
    if k == 0 then score else Smooth(SmoothMany(score, micros, k - 1), micros)
  }

  /** The distance to a steady response time shrinks by a fifth with every sample. */
  lemma {:induction false} SteadySamplesConverge(score: real, micros: real, k: nat)
    requires score > 0.0 && micros > 0.0
    ensures SmoothMany(score, micros, k) == micros + Power(0.8, k) * (score - micros)
    ensures SmoothMany(score, micros, k) > 0.0
  {
    if k > 0 {
      SteadySamplesConverge(score, micros, k - 1);
      var before, p := SmoothMany(score, micros, k - 1), Power(0.8, k - 1);
      assert Smooth(before, micros) == 0.2 * micros + 0.8 * before;
      assert 0.8 * (p * (score - micros)) == (0.8 * p) * (score - micros);
    }
  }

  /** One failure leaves a score of at least 2000 milliseconds, whatever came before it. */
  lemma OneFailurePenalises(current: real, elapsed: nat)
    requires current >= 0.0
    ensures Smooth(current, DurationMicros(PenalisedNanos(elapsed))) / 1000.0 >= 2000.0
  {
    assert DurationMicros(PenalisedNanos(elapsed)) >= 10_000_000.0;
  }
}

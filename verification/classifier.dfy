/** The fine-tier ratio rule of the node and pod paths: a metric whose
    fault-period mean stays within five percent of its baseline mean is
    treated as unchanged and not reported. */
module Classifier {
  import opened Wrappers
  import opened Summary

  /** Added to both means so that a zero baseline does not divide by zero. */
  const Epsilon: real := 0.000000001

  /** The inclusive band of ratios read as "no change". */
  const BandLow: real := 0.95
  const BandHigh: real := 1.05

  datatype Verdict =
    | NoVerdict   // a side has no statistics to compare
    | Unchanged   // both sides summarised, ratio inside the band
    | Changed     // both sides summarised, ratio outside the band

  /** `(fault_mean + ε) / (normal_mean + ε)`, absent when the denominator
      is exactly zero (a division Python would refuse). */
  function Ratio(normalMean: real, faultMean: real): (r: Option<real>)
    ensures r.None? <==> normalMean + Epsilon == 0.0
    ensures r.Some? ==> r.value * (normalMean + Epsilon) == faultMean + Epsilon
  {
    if normalMean + Epsilon == 0.0 then None
    else
      var q := (faultMean + Epsilon) / (normalMean + Epsilon);
      assert q * (normalMean + Epsilon) == faultMean + Epsilon;
      Some(q)
  }

  predicate WithinBand(normalMean: real, faultMean: real) {
    var r := Ratio(normalMean, faultMean);
    r.Some? && BandLow <= r.value <= BandHigh
  }

  /** The verdict on one metric given its baseline and fault-period
      summaries, either of which may be missing. A summary of a column with
      no sample has no mean and yields no verdict either. */
  function FineTier(normal: Option<Summary>, fault: Option<Summary>): (v: Verdict)
    ensures v == NoVerdict <==>
              normal.None? || fault.None? || normal.value.Empty? || fault.value.Empty?
    ensures v == Changed <==>
              && normal.Some? && normal.value.Stats?
              && fault.Some? && fault.value.Stats?
              && !WithinBand(normal.value.mean, fault.value.mean)
    ensures v == Unchanged ==> WithinBand(normal.value.mean, fault.value.mean)
  {
    if normal.None? || fault.None? then NoVerdict
    else if normal.value.Empty? || fault.value.Empty? then NoVerdict
    else if WithinBand(normal.value.mean, fault.value.mean) then Unchanged
    else Changed
  }

  /** For a positive shifted baseline the band test is the cross-multiplied
      comparison `0.95 (n + ε) <= f + ε <= 1.05 (n + ε)`. */
  lemma WithinBandCrossMultiplied(n: real, f: real)
    requires n + Epsilon > 0.0
    ensures WithinBand(n, f) <==> BandLow * (n + Epsilon) <= f + Epsilon <= BandHigh * (n + Epsilon)
  {
    var d := n + Epsilon;
    var r := Ratio(n, f);
    assert r.Some?;
    var q := r.value;
    assert q * d == f + Epsilon;
    assert WithinBand(n, f) <==> BandLow <= q && q <= BandHigh;
    ScaledBand(BandLow, BandHigh, q, d, f + Epsilon);
  }

  /** A quotient `q = e / d` over a positive `d` lies in `[lo, hi]` exactly
      when `e` lies in `[lo * d, hi * d]`. */
  lemma ScaledBand(lo: real, hi: real, q: real, d: real, e: real)
    requires d > 0.0 && q * d == e
    ensures (lo <= q && q <= hi) <==> (lo * d <= e && e <= hi * d)
  {
    ScaleMonotone(lo, q, d);
    ScaleMonotone(q, hi, d);
  }

  lemma ScaleMonotone(a: real, b: real, d: real)
    requires d > 0.0
    ensures a <= b <==> a * d <= b * d
  {
    if a <= b {
      assert (b - a) * d >= 0.0;
    } else {
      assert (a - b) * d > 0.0;
    }
  }

  /** Equal means are always in the band, whatever their value (as long as
      the shifted denominator is not zero). */
  lemma EqualMeansUnchanged(m: real)
    requires m + Epsilon != 0.0
    ensures WithinBand(m, m)
    ensures FineTier(Some(Stats(1, m, [m], 0.0)), Some(Stats(1, m, [m], 0.0))) == Unchanged
  {
    var q := Ratio(m, m).value;
    assert (q - 1.0) * (m + Epsilon) == 0.0;
  }

  /** Both ends of the band are inclusive: a fault mean lying exactly on
      either end over a positive baseline is still "unchanged". */
  lemma BandInclusive(n: real)
    requires n + Epsilon > 0.0
    ensures WithinBand(n, BandLow * (n + Epsilon) - Epsilon)
    ensures WithinBand(n, BandHigh * (n + Epsilon) - Epsilon)
  {
    WithinBandCrossMultiplied(n, BandLow * (n + Epsilon) - Epsilon);
    WithinBandCrossMultiplied(n, BandHigh * (n + Epsilon) - Epsilon);
  }

  /** A baseline mean of 20 against a fault mean of 90 is a change; 20
      against 20.5 is not. */
  lemma ExampleVerdicts()
    ensures !WithinBand(20.0, 90.0)
    ensures WithinBand(20.0, 20.5)
  {
    WithinBandCrossMultiplied(20.0, 90.0);
    WithinBandCrossMultiplied(20.0, 20.5);
  }
}
